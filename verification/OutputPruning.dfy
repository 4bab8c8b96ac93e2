/** Head-marker-tail pruning: a marker that prints how much it replaced, inside a bound that counts
    the marker itself (runtime/agents/src/thymira/agents/context_recovery.py). */
module OutputPruning {
  import opened Options

  // ---- Decimal lengths ----

  function Decimal(n: nat): (s: string)
    ensures |s| >= 1
  {
    if n < 10 then [(n + '0' as int) as char] else Decimal(n / 10) + [(n % 10 + '0' as int) as char]
  }

  /** The number a string of digits stands for. */
  ghost function Value(s: string): int {
    if s == "" then 0 else 10 * Value(s[..|s| - 1]) + (s[|s| - 1] as int - '0' as int)
  }

  ghost predicate AllDigits(s: string) {
    forall c :: c in s ==> '0' <= c <= '9'
  }

  /** The decimal form of a number: its digits, the first not zero unless it is the only one. */
  lemma {:induction false} DecimalReads(n: nat)
    ensures var s := Decimal(n); AllDigits(s) && Value(s) == n && (s[0] == '0' ==> n == 0 && |s| == 1)
  {
    var s := Decimal(n);
    if n < 10 {
      assert s[..0] == "" && Value(s[..0]) == 0;
    } else {
      DecimalReads(n / 10);
      assert s[..|s| - 1] == Decimal(n / 10);
    }
  }

  function Digits(n: nat): (d: nat)
    ensures d >= 1
  {
    if n < 10 then 1 else Digits(n / 10) + 1
  }

  lemma {:induction false} DecimalLength(n: nat)
    ensures |Decimal(n)| == Digits(n)
  {
    if n >= 10 { DecimalLength(n / 10); }
  }

  ghost function Pow10(k: nat): (p: nat)
    ensures p > k
  {
    if k == 0 then 1 else 10 * Pow10(k - 1)
  }

  lemma {:induction false} Pow10Grows(j: nat, k: nat)
    requires j <= k
    ensures Pow10(j) <= Pow10(k)
  {
    if j < k { Pow10Grows(j, k - 1); }
  }

  lemma {:induction false} DigitsBound(n: nat)
    ensures n < Pow10(Digits(n))
    ensures n >= 1 ==> Pow10(Digits(n) - 1) <= n
  {
    if n >= 10 { DigitsBound(n / 10); }
  }

  lemma DigitsBelow(n: nat, k: nat)
    requires k >= 1
    ensures n < Pow10(k) <==> Digits(n) <= k
  {
    DigitsBound(n);
    if Digits(n) <= k {
      Pow10Grows(Digits(n), k);
    } else if n >= 1 {
      Pow10Grows(k, Digits(n) - 1);
    }
  }

  lemma DigitsGrow(m: nat, n: nat)
    requires m <= n
    ensures Digits(m) <= Digits(n)
  {
    DigitsBelow(m, Digits(n));
    DigitsBelow(n, Digits(n));
  }

  /** A number that has just gained a digit does not gain another nearby. */
  lemma JustGrew(a: nat, b: nat, c: nat)
    requires a <= b <= c && Digits(a) < Digits(b)
    requires b <= a + Digits(a) && c <= b + Digits(b) - Digits(a)
    ensures Digits(b) == Digits(a) + 1 && Digits(c) == Digits(b)
  {
    var k := Digits(a);
    DigitsBelow(a, k);
    DigitsBelow(b, k + 1);
    assert Digits(b) == k + 1;
    DigitsBelow(c, k + 1);
    DigitsGrow(b, c);
  }

  lemma {:induction false} Room(k: nat)
    requires k >= 2
    ensures Pow10(k - 1) + 27 + k <= Pow10(k)
  {
    if k == 2 {
      assert Pow10(0) == 1 && Pow10(1) == 10 && Pow10(2) == 100;
    } else {
      Room(k - 1);
    }
  }

  // ---- Markers and splits ----

  /** The full marker with its number, or the short one of at most three characters. */
  datatype Marker = Full(omitted: nat) | Short

  function Size(m: Marker, maxChars: nat): nat {
    match m
    case Full(omitted) => 27 + Digits(omitted)
    case Short => if maxChars >= 3 then 3 else if maxChars > 0 then 1 else 0
  }

  function Text(m: Marker, maxChars: nat): (s: string)
    ensures |s| == Size(m, maxChars)
  {
    match m
    case Full(omitted) =>
      DecimalLength(omitted);
      "\n[\U{2026} omitted " + Decimal(omitted) + " characters \U{2026}]\n"
    case Short => if maxChars >= 3 then "[\U{2026}]" else if maxChars > 0 then "\U{2026}" else ""
  }

  function MarkerFor(omitted: nat, maxChars: nat): (m: Marker)
    ensures Size(m, maxChars) <= maxChars
  {
    if Size(Full(omitted), maxChars) > maxChars then Short else Full(omitted)
  }

  function AtLeastZero(n: int): nat {
    if n < 0 then 0 else n
  }

  /** `int(head * (available / total))`. The source computes it in floating point, so it is a
      parameter: all that is asked is that scaling a part of the total stays within the room. */
  type Scaling = (nat, nat, nat) -> nat

  ghost predicate ScalesWithin(scale: Scaling) {
    forall head: nat, available: nat, total: nat :: head <= total && total > 0 ==>
         scale(head, available, total) <= available
  }

  function ExactScale(head: nat, available: nat, total: nat): nat {
    if total > 0 then head * available / total else 0
  }

  function ExactScaling(): Scaling {
    (head: nat, available: nat, total: nat) => ExactScale(head, available, total)
  }

  /** What double precision leaves of a quotient and a product, with every operand and result rounded by
      a relative error of at most 2^-53, and the fraction cut off: an error of at most 2^-51 in all. */
  ghost predicate RoundsLikeDoubles(scale: Scaling) {
    forall head: nat, available: nat, total: nat :: head <= total && total > 0 ==>
      scale(head, available, total) as real * total as real
      <= head as real * available as real * (1.0 + 1.0 / 0x8_0000_0000_0000 as real)
  }

  /** Up to this many characters the rounding cannot carry a scaled head past the room. */
  const DOUBLES_ARE_EXACT_TO := 0x4_0000_0000_0000

  /** The scaling of the source below that bound, and exact scaling above it. */
  function Doubles(scale: Scaling): Scaling {
    (head: nat, available: nat, total: nat) => DoubleScale(scale, head, available, total)
  }

  function DoubleScale(scale: Scaling, head: nat, available: nat, total: nat): nat {
    if available <= DOUBLES_ARE_EXACT_TO then scale(head, available, total) else ExactScale(head, available, total)
  }

  /** Scaling in floating point is within the room for every bound a text can have in practice. */
  lemma RoundedScalingIsWithin(scale: Scaling)
    requires RoundsLikeDoubles(scale)
    ensures ScalesWithin(Doubles(scale))
  {
    ExactScalingIsWithin();
    forall head: nat, available: nat, total: nat | head <= total && total > 0
      ensures Doubles(scale)(head, available, total) <= available
    {
      if available <= DOUBLES_ARE_EXACT_TO {
        RoundedIsWithin(scale(head, available, total), head, available, total);
      } else {
        assert ExactScaling()(head, available, total) <= available;
      }
    }
  }

  lemma RoundedIsWithin(scaled: nat, head: nat, available: nat, total: nat)
    requires head <= total && total > 0 && available <= DOUBLES_ARE_EXACT_TO
    requires scaled as real * total as real
         <= head as real * available as real * (1.0 + 1.0 / 0x8_0000_0000_0000 as real)
    ensures scaled <= available
  {
    var v := 1.0 + 1.0 / 0x8_0000_0000_0000 as real;
    assert available as real * v < available as real + 1.0;
    QuotientBelow(scaled as real, head as real, available as real, total as real, v);
  }

  lemma QuotientBelow(s: real, h: real, a: real, t: real, v: real)
    requires s * t <= h * a * v && h <= t && t > 0.0 && a >= 0.0 && v >= 0.0 && a * v < a + 1.0
    ensures s < a + 1.0
  {
    assert h * a * v == h * (a * v);
    RealTimesGrows(h, t, a * v);
    RealTimesGrows(a * v, a + 1.0, t);
    if s >= a + 1.0 { RealTimesGrows(a + 1.0, s, t); }
  }

  lemma RealTimesGrows(a: real, b: real, c: real)
    requires a <= b && c >= 0.0
    ensures a * c <= b * c && (a < b && c > 0.0 ==> a * c < b * c)
  {
  }

  lemma TimesGrows(a: nat, b: nat, c: nat)
    requires a <= b
    ensures a * c <= b * c
  {
  }

  /** Scaling in exact arithmetic is such a scaling. */
  lemma ExactScalingIsWithin()
    ensures ScalesWithin(ExactScaling())
  {
    forall head: nat, available: nat, total: nat | head <= total && total > 0
      ensures ExactScaling()(head, available, total) <= available
    {
      TimesGrows(head, total, available);
      QuotientIsWithin(head * available, available, total);
    }
  }

  lemma QuotientIsWithin(p: nat, available: nat, total: nat)
    requires total > 0 && p <= total * available
    ensures 0 <= p / total <= available
  {
    var q := p / total;
    assert q * total <= p;
    if q > available {
      TimesGrows(available + 1, q, total);
    }
  }

  /** The requested head and tail for the room left; the tail may come out negative. */
  function Split(available: nat, head: Option<int>, tail: Option<int>, scale: Scaling): (r: (nat, int))
    requires ScalesWithin(scale)
    ensures r.0 + r.1 <= available
  {
    var h := if head.None? then available / 2 else AtLeastZero(head.value);
    var t := if tail.None? then available - h else AtLeastZero(tail.value);
    if h + t > available then
      var scaled := scale(h, available, h + t);
      (scaled, available - scaled)
    else (h, t)
  }

  /** How many characters a split keeps. */
  function Kept(available: nat, head: Option<int>, tail: Option<int>, scale: Scaling): int
    requires ScalesWithin(scale)
  {
    Split(available, head, tail, scale).0 + Split(available, head, tail, scale).1
  }

  /** How a room is divided: in half, the odd character to the tail, if no length is asked for; after the
      head if only it is asked for; otherwise as asked for, with half the room for a head that is not,
      or, if that does not fit, with the room filled and the head scaled down to it. */
  ghost predicate Divides(room: nat, head: Option<int>, tail: Option<int>, scale: Scaling, h: nat, t: int) {
    match (head, tail)
    case (None, None) => h + t == room && 0 <= t - h <= 1
    case (Some(a), None) => h == AtLeastZero(a) && h + t == room
    case (None, Some(b)) =>
      if AtLeastZero(b) <= room - room / 2 then h == room / 2 && t == AtLeastZero(b)
      else h == scale(room / 2, room, room / 2 + AtLeastZero(b)) && h + t == room
    case (Some(a), Some(b)) =>
      if AtLeastZero(a) + AtLeastZero(b) <= room then h == AtLeastZero(a) && t == AtLeastZero(b)
      else h == scale(AtLeastZero(a), room, AtLeastZero(a) + AtLeastZero(b)) && h + t == room
  }

  lemma SplitDivides(room: nat, head: Option<int>, tail: Option<int>, scale: Scaling)
    requires ScalesWithin(scale)
    ensures var (h, t) := Split(room, head, tail, scale);
      Divides(room, head, tail, scale, h, t)
  {
  }

  /** More room keeps more, by at most the extra room. */
  lemma KeptGrows(a: nat, b: nat, head: Option<int>, tail: Option<int>, scale: Scaling)
    requires ScalesWithin(scale) && a <= b
    ensures 0 <= Kept(a, head, tail, scale) <= Kept(b, head, tail, scale) <= Kept(a, head, tail, scale) + (b - a)
  {
  }

  // ---- The three rounds ----

  datatype Plan = Plan(head: nat, tail: int, marker: Marker)

  function Round(n: nat, maxChars: nat, head: Option<int>, tail: Option<int>, scale: Scaling, marker: Marker): (p: Plan)
    requires ScalesWithin(scale) && n > maxChars >= Size(marker, maxChars)
    ensures var room := maxChars - Size(marker, maxChars);
      p.head + p.tail == Kept(room, head, tail, scale) <= room
    ensures p.marker == MarkerFor(n - p.head - p.tail, maxChars)
  {
    var (h, t) := Split(maxChars - Size(marker, maxChars), head, tail, scale);
    Plan(h, t, MarkerFor(n - h - t, maxChars))
  }

  function FirstMarker(n: nat, maxChars: nat): (m: Marker)
    requires n > maxChars
    ensures Size(m, maxChars) <= maxChars
  {
    MarkerFor(n - maxChars, maxChars)
  }

  function Rounds(
    n: nat, maxChars: nat, head: Option<int>, tail: Option<int>, scale: Scaling, marker: Marker, left: nat): (p: Plan)
    requires ScalesWithin(scale) && n > maxChars >= Size(marker, maxChars) && left > 0
    decreases left
  {
    var p := Round(n, maxChars, head, tail, scale, marker);
    if Size(p.marker, maxChars) == Size(marker, maxChars) || left == 1 then p
    else Rounds(n, maxChars, head, tail, scale, p.marker, left - 1)
  }

  function FinalPlan(n: nat, maxChars: nat, head: Option<int>, tail: Option<int>, scale: Scaling): Plan
    requires ScalesWithin(scale) && n > maxChars
  {
    Rounds(n, maxChars, head, tail, scale, FirstMarker(n, maxChars), 3)
  }

  // ---- Why three rounds are enough ----

  /** How many characters a round omits, as a function of its marker's length: at least the excess
      `x` and the marker, more for a longer marker but by no more than the marker grew. */
  ghost predicate OmitsSteadily(o: nat -> int, x: nat, maxChars: nat) {
    forall m1: nat, m2: nat :: m1 <= m2 <= maxChars ==>
      x + m1 <= o(m1) <= o(m2) <= o(m1) + (m2 - m1) && o(m2) <= x + maxChars
  }

  ghost function MarkerLength(omitted: int, maxChars: nat): (r: nat)
    ensures r <= maxChars
  {
    if omitted < 0 || 27 + Digits(omitted) > maxChars then Size(Short, maxChars) else 27 + Digits(omitted)
  }

  /** The marker lengths the rounds go through: the last one a split was made for, and the one the
      rounds end on. */
  ghost function Sizes(o: nat -> int, maxChars: nat, m: nat, left: nat): (r: (nat, nat))
    requires left > 0 && m <= maxChars
    ensures r.0 <= maxChars && r.1 <= maxChars
    decreases left
  {
    var next := MarkerLength(o(m), maxChars);
    if next == m || left == 1 then (m, next) else Sizes(o, maxChars, next, left - 1)
  }

  lemma NoRoomNoGrowth(x: nat, k0: nat, k1: nat)
    requires k0 == Digits(x) < k1
    ensures Digits(x + 27 + k1) <= k1
  {
    DigitsBelow(x, k0);
    Pow10Grows(k0, k1 - 1);
    Room(k1);
    DigitsBelow(x + 27 + k1, k1);
  }

  lemma FullBoundNoGrowth(x: nat, o0: nat, o1: nat)
    requires Digits(x) < Digits(o0) && o1 <= x + 27 + Digits(o0)
    ensures Digits(o1) <= Digits(o0)
  {
    NoRoomNoGrowth(x, Digits(x), Digits(o0));
    DigitsGrow(o1, x + 27 + Digits(o0));
  }

  lemma GrowsByOne(o0: nat, o1: nat)
    requires o0 <= o1 <= o0 + Digits(o0)
    ensures Digits(o1) <= Digits(o0) + 1
  {
    if Digits(o0) < Digits(o1) { JustGrew(o0, o1, o1); }
  }

  /** A longer full marker stays full: its next length still fits. */
  lemma LongerMarkerFits(x: nat, maxChars: nat, o0: nat, o1: nat)
    requires 27 + Digits(o0) <= maxChars && Digits(x) < Digits(o0)
    requires o0 <= o1 <= o0 + Digits(o0) && o1 <= x + maxChars
    ensures 27 + Digits(o1) <= maxChars
  {
    GrowsByOne(o0, o1);
    if maxChars <= 27 + Digits(o0) { FullBoundNoGrowth(x, o0, o1); }
  }

  /** Three rounds from the first marker end on one as long as the split left room for, or on the
      short one in the room of a longer one. */
  ghost predicate SettlesInThree(o: nat -> int, x: nat, maxChars: nat) {
    var (m, last) := Sizes(o, maxChars, MarkerLength(x, maxChars), 3);
    last == m || last == Size(Short, maxChars) < m
  }

  lemma SettlesIf(o: nat -> int, x: nat, maxChars: nat)
    ensures var m0 := MarkerLength(x, maxChars);
      var m1 := MarkerLength(o(m0), maxChars);
      var m2 := MarkerLength(o(m1), maxChars);
      var m3 := MarkerLength(o(m2), maxChars);
      SettlesInThree(o, x, maxChars) <== m1 == m0 || m2 == m1 || m3 == m2 || m3 == Size(Short, maxChars) < m2
  {
    var m0 := MarkerLength(x, maxChars);
    var m1 := MarkerLength(o(m0), maxChars);
    var m2 := MarkerLength(o(m1), maxChars);
    if m1 != m0 && m2 != m1 {
      assert Sizes(o, maxChars, m0, 3) == Sizes(o, maxChars, m1, 2) == Sizes(o, maxChars, m2, 1);
    }
  }

  lemma ThreeRoundsSettle(o: nat -> int, x: nat, maxChars: nat)
    requires OmitsSteadily(o, x, maxChars)
    ensures SettlesInThree(o, x, maxChars)
  {
    SettlesIf(o, x, maxChars);
    var m0 := MarkerLength(x, maxChars);
    assert o(m0) >= x;
    DigitsGrow(x, o(m0));
    if 27 + Digits(x) <= maxChars {
      if 27 + Digits(o(m0)) > maxChars {
        ShortMarkerSwings(o, x, maxChars);
      } else if Digits(o(m0)) > Digits(x) {
        LongMarkerLengths(o, x, maxChars);
      }
    }
  }

  /** Falling back to the short marker, the rounds stay short or swing short, long, short: the third
      round ends on the short marker, with the room of a long one. */
  lemma ShortMarkerSwings(o: nat -> int, x: nat, maxChars: nat)
    requires OmitsSteadily(o, x, maxChars) && 27 + Digits(x) <= maxChars
    requires o(27 + Digits(x)) >= 0 && 27 + Digits(o(27 + Digits(x))) > maxChars
    ensures SettlesInThree(o, x, maxChars)
  {
    var s, m0 := Size(Short, maxChars), 27 + Digits(x);
    SettlesIf(o, x, maxChars);
    assert o(s) >= x;
    DigitsGrow(x, o(s));
    var m2 := MarkerLength(o(s), maxChars);
    if m2 != s {
      assert o(m0) <= o(m2);
      DigitsGrow(o(m0), o(m2));
    }
  }

  /** Growing to a longer full marker, the rounds need at most one more. */
  lemma LongMarkerLengths(o: nat -> int, x: nat, maxChars: nat)
    requires OmitsSteadily(o, x, maxChars) && 27 + Digits(x) <= maxChars
    requires o(27 + Digits(x)) >= 0 && Digits(x) < Digits(o(27 + Digits(x))) <= maxChars - 27
    ensures SettlesInThree(o, x, maxChars)
  {
    var m0 := 27 + Digits(x);
    var m1 := 27 + Digits(o(m0));
    SettlesIf(o, x, maxChars);
    assert o(m0) <= o(m1) <= o(m0) + (m1 - m0);
    LongerMarkerFits(x, maxChars, o(m0), o(m1));
    DigitsGrow(o(m0), o(m1));
    var m2 := 27 + Digits(o(m1));
    if m2 > m1 {
      assert o(m1) <= o(m2) <= o(m1) + (m2 - m1);
      JustGrew(o(m0), o(m1), o(m2));
    }
  }

  /** What a round of this text, bound and split omits. */
  ghost function Omits(n: nat, maxChars: nat, head: Option<int>, tail: Option<int>, scale: Scaling): nat -> int
    requires ScalesWithin(scale)
  {
    (m: nat) => if m <= maxChars then n - Kept(maxChars - m, head, tail, scale) else 0
  }

  lemma OmitsIsSteady(n: nat, maxChars: nat, head: Option<int>, tail: Option<int>, scale: Scaling)
    requires ScalesWithin(scale) && n > maxChars
    ensures OmitsSteadily(Omits(n, maxChars, head, tail, scale), n - maxChars, maxChars)
  {
    forall m1: nat, m2: nat | m1 <= m2 <= maxChars
      ensures var o := Omits(n, maxChars, head, tail, scale);
        n - maxChars + m1 <= o(m1) <= o(m2) <= o(m1) + (m2 - m1) && o(m2) <= n
    {
      KeptGrows(maxChars - m2, maxChars - m1, head, tail, scale);
    }
  }

  /** A plan is the split of the room one marker leaves, and carries the marker for what that omits. */
  ghost predicate Measured(
    p: Plan, n: nat, maxChars: nat, head: Option<int>, tail: Option<int>, scale: Scaling, sizes: (nat, nat))
    requires ScalesWithin(scale) && sizes.0 <= maxChars
  {
    && Split(maxChars - sizes.0, head, tail, scale) == (p.head, p.tail)
    && p.head + p.tail <= maxChars - sizes.0
    && Size(p.marker, maxChars) == sizes.1
    && n - p.head - p.tail >= 0 && p.marker == MarkerFor(n - p.head - p.tail, maxChars)
  }

  lemma RoundMeasures(n: nat, maxChars: nat, head: Option<int>, tail: Option<int>, scale: Scaling, marker: Marker)
    requires ScalesWithin(scale) && n > maxChars >= Size(marker, maxChars)
    ensures var o := Omits(n, maxChars, head, tail, scale);
      var m := Size(marker, maxChars);
      Measured(Round(n, maxChars, head, tail, scale, marker), n, maxChars, head, tail, scale,
               (m, MarkerLength(o(m), maxChars)))
  {
  }

  lemma {:induction false} RoundsMeasure(
    n: nat, maxChars: nat, head: Option<int>, tail: Option<int>, scale: Scaling, marker: Marker, left: nat)
    requires ScalesWithin(scale) && n > maxChars >= Size(marker, maxChars) && left > 0
    ensures var o := Omits(n, maxChars, head, tail, scale);
      Measured(Rounds(n, maxChars, head, tail, scale, marker, left), n, maxChars, head, tail, scale,
               Sizes(o, maxChars, Size(marker, maxChars), left))
    decreases left
  {
    var o, m := Omits(n, maxChars, head, tail, scale), Size(marker, maxChars);
    RoundMeasures(n, maxChars, head, tail, scale, marker);
    var p := Round(n, maxChars, head, tail, scale, marker);
    if Size(p.marker, maxChars) == m || left == 1 {
      assert Rounds(n, maxChars, head, tail, scale, marker, left) == p;
      assert Sizes(o, maxChars, m, left) == (m, MarkerLength(o(m), maxChars));
    } else {
      RoundsMeasure(n, maxChars, head, tail, scale, p.marker, left - 1);
      RoundsStep(n, maxChars, head, tail, scale, marker, left);
      SizesStep(o, maxChars, m, left);
    }
  }

  lemma RoundsStep(
    n: nat, maxChars: nat, head: Option<int>, tail: Option<int>, scale: Scaling, marker: Marker, left: nat)
    requires ScalesWithin(scale) && n > maxChars >= Size(marker, maxChars) && left > 1
    ensures var p := Round(n, maxChars, head, tail, scale, marker);
      Size(p.marker, maxChars) != Size(marker, maxChars) ==>
        Rounds(n, maxChars, head, tail, scale, marker, left)
             == Rounds(n, maxChars, head, tail, scale, p.marker, left - 1)
  {
  }

  lemma SizesStep(o: nat -> int, maxChars: nat, m: nat, left: nat)
    requires left > 1 && m <= maxChars
    ensures var next := MarkerLength(o(m), maxChars);
      next != m ==> Sizes(o, maxChars, m, left) == Sizes(o, maxChars, next, left - 1)
  {
  }

  /** Every marker length is the short marker's or a full one's. */
  lemma {:induction false} SizesAreMarkers(o: nat -> int, maxChars: nat, m: nat, left: nat)
    requires left > 0 && m <= maxChars && IsMarkerSize(m, maxChars)
    ensures IsMarkerSize(Sizes(o, maxChars, m, left).0, maxChars)
    decreases left
  {
    var next := MarkerLength(o(m), maxChars);
    MarkerLengthIsSize(o(m), maxChars);
    if next != m && left > 1 {
      SizesAreMarkers(o, maxChars, next, left - 1);
    }
  }

  ghost predicate IsMarkerSize(m: nat, maxChars: nat) {
    m == Size(Short, maxChars) || exists k :: m == Size(Full(k), maxChars)
  }

  /** The room of the last split is what the plan's marker leaves, or, if that is the short one, what a
      longer full one leaves. */
  ghost predicate LastRoom(room: nat, maxChars: nat, marker: Marker) {
    || room + Size(marker, maxChars) == maxChars
    || (marker == Short && exists k ::
          room + Size(Full(k), maxChars) == maxChars && Size(Full(k), maxChars) > Size(Short, maxChars))
  }

  lemma FinalPlanDivides(n: nat, maxChars: nat, head: Option<int>, tail: Option<int>, scale: Scaling)
    returns (p: Plan, room: nat)
    requires ScalesWithin(scale) && n > maxChars
    ensures p == FinalPlan(n, maxChars, head, tail, scale)
    ensures p.head + p.tail <= room <= maxChars && p.marker == MarkerFor(n - p.head - p.tail, maxChars)
    ensures LastRoom(room, maxChars, p.marker) && Divides(room, head, tail, scale, p.head, p.tail)
  {
    var sizes: (nat, nat);
    p, sizes := FinalSizes(n, maxChars, head, tail, scale);
    room := maxChars - sizes.0;
    SplitDivides(room, head, tail, scale);
    SizesLeaveRoom(p.marker, n - p.head - p.tail, maxChars, sizes);
  }

  /** The final plan and the marker lengths it ends on. */
  lemma FinalSizes(n: nat, maxChars: nat, head: Option<int>, tail: Option<int>, scale: Scaling)
    returns (p: Plan, sizes: (nat, nat))
    requires ScalesWithin(scale) && n > maxChars
    ensures p == FinalPlan(n, maxChars, head, tail, scale)
    ensures sizes.0 <= maxChars && IsMarkerSize(sizes.0, maxChars)
    ensures sizes.1 == sizes.0 || sizes.1 == Size(Short, maxChars) < sizes.0
    ensures Measured(p, n, maxChars, head, tail, scale, sizes)
  {
    var m0 := MarkerLength(n - maxChars, maxChars);
    p, sizes := LastSizes(n, maxChars, head, tail, scale, m0);
    MarkerLengthIsSize(n - maxChars, maxChars);
    SizesAreMarkers(Omits(n, maxChars, head, tail, scale), maxChars, m0, 3);
  }

  lemma LastSizes(n: nat, maxChars: nat, head: Option<int>, tail: Option<int>, scale: Scaling, m0: nat)
    returns (p: Plan, sizes: (nat, nat))
    requires ScalesWithin(scale) && n > maxChars && m0 == MarkerLength(n - maxChars, maxChars) <= maxChars
    ensures p == FinalPlan(n, maxChars, head, tail, scale)
    ensures sizes == Sizes(Omits(n, maxChars, head, tail, scale), maxChars, m0, 3)
    ensures sizes.1 == sizes.0 || sizes.1 == Size(Short, maxChars) < sizes.0
    ensures Measured(p, n, maxChars, head, tail, scale, sizes)
  {
    var o := Omits(n, maxChars, head, tail, scale);
    OmitsIsSteady(n, maxChars, head, tail, scale);
    ThreeRoundsSettle(o, n - maxChars, maxChars);
    FinalPlanMeasured(n, maxChars, head, tail, scale);
    p, sizes := FinalPlan(n, maxChars, head, tail, scale), Sizes(o, maxChars, m0, 3);
  }

  lemma MarkerLengthIsSize(omitted: int, maxChars: nat)
    ensures IsMarkerSize(MarkerLength(omitted, maxChars), maxChars)
  {
    var m := MarkerLength(omitted, maxChars);
    if m != Size(Short, maxChars) { assert m == Size(Full(omitted), maxChars); }
  }

  lemma SizesLeaveRoom(marker: Marker, omitted: nat, maxChars: nat, sizes: (nat, nat))
    requires marker == MarkerFor(omitted, maxChars) && Size(marker, maxChars) == sizes.1
    requires sizes.0 <= maxChars && IsMarkerSize(sizes.0, maxChars)
    requires sizes.1 == sizes.0 || sizes.1 == Size(Short, maxChars) < sizes.0
    ensures LastRoom(maxChars - sizes.0, maxChars, marker)
  {
    FullIsLong(marker, omitted, maxChars);
  }

  /** After the loop the kept characters and the marker fit the bound together, and the marker is the
      one for exactly what the split does not keep: for every text length, bound and split, also when
      the rounds swing between the long and the short marker and never settle. */
  lemma FinalPlanFits(n: nat, maxChars: nat, head: Option<int>, tail: Option<int>, scale: Scaling)
    requires ScalesWithin(scale) && n > maxChars
    ensures var p := FinalPlan(n, maxChars, head, tail, scale);
      && p.head + p.tail + Size(p.marker, maxChars) <= maxChars
      && p.marker == MarkerFor(n - p.head - p.tail, maxChars)
      && (p.marker.Full? && tail.None? ==> p.head + p.tail + Size(p.marker, maxChars) == maxChars)
  {
    var p, sizes := FinalSizes(n, maxChars, head, tail, scale);
    if sizes.1 == sizes.0 && tail.None? { KeepsAllRoom(maxChars - sizes.0, head, scale); }
  }

  /** A full marker is longer than the short one. */
  lemma FullIsLong(marker: Marker, omitted: nat, maxChars: nat)
    requires marker == MarkerFor(omitted, maxChars)
    ensures Size(marker, maxChars) == Size(Short, maxChars) ==> marker == Short
  {
  }

  lemma FinalPlanMeasured(n: nat, maxChars: nat, head: Option<int>, tail: Option<int>, scale: Scaling)
    requires ScalesWithin(scale) && n > maxChars
    ensures var o := Omits(n, maxChars, head, tail, scale);
      var sizes := Sizes(o, maxChars, MarkerLength(n - maxChars, maxChars), 3);
      Measured(FinalPlan(n, maxChars, head, tail, scale), n, maxChars, head, tail, scale, sizes)
  {
    RoundsMeasure(n, maxChars, head, tail, scale, FirstMarker(n, maxChars), 3);
  }

  lemma KeepsAllRoom(available: nat, head: Option<int>, scale: Scaling)
    requires ScalesWithin(scale)
    ensures Kept(available, head, None, scale) == available
  {
  }

  // ---- The operation ----

  datatype Pruned = Pruned(text: string, head: string, marker: string, tail: string, omitted: int)

  /** The final marker's length where no tail is asked for: every split then fills its room, so the
      rounds see only the excess. */
  function HeadMarkerSize(n: nat, maxChars: nat): nat
    requires n > maxChars
  {
    var x := n - maxChars;
    var full := 27 + Digits(x);
    var grown := 27 + Digits(x + full);
    if full <= maxChars && grown <= maxChars then grown else Size(Short, maxChars)
  }

  /** Only the head was asked for, and it is larger than the room the marker will leave. */
  predicate HeadOverruns(n: nat, maxChars: nat, head: Option<int>, tail: Option<int>)
    requires n > maxChars
  {
    tail.None? && head.Some? && head.value > maxChars - HeadMarkerSize(n, maxChars)
  }

  /** The rounds over `x + m` end on that length. */
  lemma SizesWithoutTail(o: nat -> int, n: nat, maxChars: nat)
    requires n > maxChars && forall m: nat :: m <= maxChars ==> o(m) == n - maxChars + m
    ensures Sizes(o, maxChars, MarkerLength(n - maxChars, maxChars), 3).1 == HeadMarkerSize(n, maxChars)
  {
    var x, short := n - maxChars, Size(Short, maxChars);
    var full := 27 + Digits(x);
    DigitsGrow(x, x + short);
    if full <= maxChars {
      var grown := 27 + Digits(x + full);
      DigitsGrow(x, x + full);
      if grown <= maxChars {
        LongSizes(o, x, maxChars);
      } else {
        ShortSizes(o, x, maxChars);
      }
    } else {
      assert MarkerLength(x, maxChars) == short;
      assert MarkerLength(o(short), maxChars) == short;
    }
  }

  lemma LongSizes(o: nat -> int, x: nat, maxChars: nat)
    requires forall m: nat :: m <= maxChars ==> o(m) == x + m
    requires Digits(x) <= Digits(x + (27 + Digits(x))) && 27 + Digits(x + (27 + Digits(x))) <= maxChars
    ensures Sizes(o, maxChars, 27 + Digits(x), 3).1 == 27 + Digits(x + (27 + Digits(x)))
  {
    var full := 27 + Digits(x);
    var grown := 27 + Digits(x + full);
    assert MarkerLength(o(full), maxChars) == grown;
    if grown > full {
      FullBoundNoGrowth(x, x + full, x + grown);
      DigitsGrow(x + full, x + grown);
      assert MarkerLength(o(grown), maxChars) == grown;
    }
  }

  lemma ShortSizes(o: nat -> int, x: nat, maxChars: nat)
    requires forall m: nat :: m <= maxChars ==> o(m) == x + m
    requires 27 + Digits(x) <= maxChars < 27 + Digits(x + (27 + Digits(x)))
    ensures Sizes(o, maxChars, 27 + Digits(x), 3).1 == Size(Short, maxChars)
  {
    var full, short := 27 + Digits(x), Size(Short, maxChars);
    assert MarkerLength(o(full), maxChars) == short;
    var next := MarkerLength(o(short), maxChars);
    if next != short {
      DigitsGrow(x, x + short);
      assert next == 27 + Digits(x + short) >= full;
      DigitsGrow(x + full, x + next);
      assert MarkerLength(o(next), maxChars) == short;
    }
  }

  lemma HeadMarkerIsFinal(n: nat, maxChars: nat, head: Option<int>, scale: Scaling)
    requires ScalesWithin(scale) && n > maxChars
    ensures Size(FinalPlan(n, maxChars, head, None, scale).marker, maxChars) == HeadMarkerSize(n, maxChars)
  {
    var o := Omits(n, maxChars, head, None, scale);
    forall m: nat | m <= maxChars ensures o(m) == n - maxChars + m {
      KeepsAllRoom(maxChars - m, head, scale);
    }
    SizesWithoutTail(o, n, maxChars);
    FinalPlanMeasured(n, maxChars, head, None, scale);
  }

  /** The loop of three rounds. */
  method SettlePlan(n: nat, maxChars: nat, head: Option<int>, tail: Option<int>, scale: Scaling) returns (plan: Plan)
    requires ScalesWithin(scale) && n > maxChars
    ensures plan == FinalPlan(n, maxChars, head, tail, scale)
  {
    var marker := FirstMarker(n, maxChars);
    plan := Plan(0, 0, marker);
    for i := 0 to 3
      invariant Size(marker, maxChars) <= maxChars
      invariant i < 3 ==>
        FinalPlan(n, maxChars, head, tail, scale) == Rounds(n, maxChars, head, tail, scale, marker, 3 - i)
      invariant i == 3 ==> plan == FinalPlan(n, maxChars, head, tail, scale)
    {
      plan := Round(n, maxChars, head, tail, scale, marker);
      if Size(plan.marker, maxChars) == Size(marker, maxChars) {
        return;
      }
      marker := plan.marker;
    }
  }

  /** `text[:head] + marker + text[len(text) - tail:]`, with the source's slices for a head past the
      end of the text and a tail that is zero or negative. */
  function Assemble(text: string, p: Plan, maxChars: nat): Pruned {
    var head := if p.head <= |text| then text[..p.head] else text;
    var tail := if 0 < p.tail <= |text| then text[|text| - p.tail..] else "";
    var marker := Text(p.marker, maxChars);
    Pruned(head + marker + tail, head, marker, tail, |text| - |head| - |tail|)
  }

  /** A prefix, the marker and a disjoint suffix of the text, with the characters between counted. */
  ghost predicate KeepsEnds(r: Pruned, text: string) {
    && r.text == r.head + r.marker + r.tail
    && |r.head| + |r.tail| <= |text|
    && r.head == text[..|r.head|] && r.tail == text[|text| - |r.tail|..]
    && r.omitted == |text| - |r.head| - |r.tail|
  }

  /** Head and tail have the lengths of a split of the last room, and the marker names what that split
      omits, in full if it fits. */
  ghost predicate Divided(
    r: Pruned, n: nat, maxChars: nat, headChars: Option<int>, tailChars: Option<int>, scale: Scaling)
  {
    exists room: nat, h: nat, t: int ::
      && Divides(room, headChars, tailChars, scale, h, t)
      && |r.head| == (if h <= n then h else n) && |r.tail| == AtLeastZero(t)
      && Names(r.marker, n - h - t, maxChars) && LeftBy(room, maxChars, r.marker)
  }

  /** The full marker for a number if it fits the bound, and the short one otherwise. */
  ghost predicate Names(marker: string, omitted: int, maxChars: nat) {
    && omitted >= 0
    && marker == if |Text(Full(omitted), maxChars)| <= maxChars then Text(Full(omitted), maxChars)
                 else Text(Short, maxChars)
  }

  /** The room is what the marker leaves of the bound, or, for the short one, what some full one leaves. */
  ghost predicate LeftBy(room: nat, maxChars: nat, marker: string) {
    || room + |marker| == maxChars
    || (marker == Text(Short, maxChars) && exists k ::
          room + |Text(Full(k), maxChars)| == maxChars && |Text(Full(k), maxChars)| > |marker|)
  }

  lemma AssembledDivides(
    text: string, maxChars: nat, headChars: Option<int>, tailChars: Option<int>, scale: Scaling)
    requires ScalesWithin(scale) && |text| > maxChars
    ensures var r := Assemble(text, FinalPlan(|text|, maxChars, headChars, tailChars, scale), maxChars);
      && Divided(r, |text|, maxChars, headChars, tailChars, scale)
      && (headChars.None? && tailChars.None? ==> 0 <= |r.tail| - |r.head| <= 1)
  {
    var p, room := FinalPlanDivides(|text|, maxChars, headChars, tailChars, scale);
    RoomLeft(room, maxChars, p.marker);
    NamesPlan(p.marker, |text| - p.head - p.tail, maxChars);
    AssembledAs(text, p, maxChars, headChars, tailChars, scale, room);
  }

  lemma AssembledAs(
    text: string, p: Plan, maxChars: nat, headChars: Option<int>, tailChars: Option<int>, scale: Scaling, room: nat)
    requires p.head + p.tail <= maxChars < |text| && Divides(room, headChars, tailChars, scale, p.head, p.tail)
    requires Names(Text(p.marker, maxChars), |text| - p.head - p.tail, maxChars)
    requires LeftBy(room, maxChars, Text(p.marker, maxChars))
    ensures var r := Assemble(text, p, maxChars);
      && Divided(r, |text|, maxChars, headChars, tailChars, scale)
      && (headChars.None? && tailChars.None? ==> 0 <= |r.tail| - |r.head| <= 1)
  {
    var r := Assemble(text, p, maxChars);
    assert |r.head| == (if p.head <= |text| then p.head else |text|) && |r.tail| == AtLeastZero(p.tail);
  }

  lemma RoomLeft(room: nat, maxChars: nat, marker: Marker)
    requires LastRoom(room, maxChars, marker)
    ensures LeftBy(room, maxChars, Text(marker, maxChars))
  {
    if room + Size(marker, maxChars) != maxChars {
      var k :| room + Size(Full(k), maxChars) == maxChars && Size(Full(k), maxChars) > Size(Short, maxChars);
      assert |Text(Full(k), maxChars)| == Size(Full(k), maxChars);
    }
  }

  lemma NamesPlan(marker: Marker, omitted: int, maxChars: nat)
    requires omitted >= 0 && marker == MarkerFor(omitted, maxChars)
    ensures Names(Text(marker, maxChars), omitted, maxChars)
  {
  }

  lemma AssembledFits(text: string, maxChars: nat, head: Option<int>, tail: Option<int>, scale: Scaling)
    requires ScalesWithin(scale) && |text| > maxChars
    ensures var p := FinalPlan(|text|, maxChars, head, tail, scale);
      var r := Assemble(text, p, maxChars);
      && KeepsEnds(r, text)
      && (|r.text| <= maxChars <==> !HeadOverruns(|text|, maxChars, head, tail))
      && (p.marker.Full? ==> (p.marker.omitted == r.omitted <==> !HeadOverruns(|text|, maxChars, head, tail)))
  {
    FinalPlanFits(|text|, maxChars, head, tail, scale);
    FinalPlanSplit(|text|, maxChars, head, tail, scale);
    if tail.None? { HeadMarkerIsFinal(|text|, maxChars, head, scale); }
    PlanAssembles(text, FinalPlan(|text|, maxChars, head, tail, scale), maxChars);
  }

  /** A plan with a tail keeps within the bound; without one, whether it does is up to the head. */
  lemma PlanAssembles(text: string, p: Plan, maxChars: nat)
    requires |text| > maxChars && p.head + p.tail + Size(p.marker, maxChars) <= maxChars
    requires p.head + p.tail <= |text| && p.marker == MarkerFor(|text| - p.head - p.tail, maxChars)
    ensures var r := Assemble(text, p, maxChars);
      && KeepsEnds(r, text)
      && (|r.text| <= maxChars <==> p.tail >= 0 || p.head <= maxChars - Size(p.marker, maxChars))
      && (p.marker.Full? ==> (p.marker.omitted == r.omitted <==> p.tail >= 0))
  {
  }

  /** Only a head asked for alone, past the room it had, makes the tail negative. */
  lemma FinalPlanSplit(n: nat, maxChars: nat, head: Option<int>, tail: Option<int>, scale: Scaling)
    requires ScalesWithin(scale) && n > maxChars
    ensures var p := FinalPlan(n, maxChars, head, tail, scale);
      p.tail < 0 ==> tail.None? && head.Some? && p.head == AtLeastZero(head.value)
    ensures var p := FinalPlan(n, maxChars, head, tail, scale);
      tail.None? && head.Some? ==> p.head == AtLeastZero(head.value)
  {
    RoundsSplit(n, maxChars, head, tail, scale, FirstMarker(n, maxChars), 3);
  }

  lemma {:induction false} RoundsSplit(
    n: nat, maxChars: nat, head: Option<int>, tail: Option<int>, scale: Scaling, marker: Marker, left: nat)
    requires ScalesWithin(scale) && n > maxChars >= Size(marker, maxChars) && left > 0
    ensures var p := Rounds(n, maxChars, head, tail, scale, marker, left);
      && (p.tail < 0 ==> tail.None? && head.Some?)
      && (tail.None? && head.Some? ==> p.head == AtLeastZero(head.value))
    decreases left
  {
    var p := Round(n, maxChars, head, tail, scale, marker);
    if Size(p.marker, maxChars) != Size(marker, maxChars) && left > 1 {
      RoundsSplit(n, maxChars, head, tail, scale, p.marker, left - 1);
      RoundsStep(n, maxChars, head, tail, scale, marker, left);
    }
  }

  /** Two full markers with one text print one number. */
  lemma FullTextIsInjective(a: nat, b: nat, maxChars: nat)
    requires Text(Full(a), maxChars) == Text(Full(b), maxChars)
    ensures a == b
  {
    var s, t := Text(Full(a), maxChars), Text(Full(b), maxChars);
    assert s[12..|s| - 15] == Decimal(a);
    assert t[12..|t| - 15] == Decimal(b);
    DecimalReads(a);
    DecimalReads(b);
  }

  /** The bound holds exactly unless a head alone was asked for beyond the room its marker leaves, and
      exactly then a full marker prints the number of characters really omitted. Head and tail divide the
      room the marker leaves as asked for, and evenly if nothing is asked for. */
  method PruneHeadMarkerTail(
    text: string, maxChars: int, headChars: Option<int>, tailChars: Option<int>, scale: Scaling)
    returns (result: Result<Pruned, string>)
    requires ScalesWithin(scale)
    ensures result.Err? <==> maxChars < 0
    ensures result.Ok? && |text| <= maxChars ==> result.value == Pruned(text, text, "", "", 0)
    ensures result.Ok? && |text| > maxChars ==>
      && KeepsEnds(result.value, text)
      && (|result.value.text| <= maxChars <==> !HeadOverruns(|text|, maxChars, headChars, tailChars))
      && (result.value.marker != Text(Short, maxChars) ==>
            (result.value.marker == Text(Full(result.value.omitted), maxChars)
             <==> !HeadOverruns(|text|, maxChars, headChars, tailChars)))
    ensures result.Ok? && |text| > maxChars ==>
      && Divided(result.value, |text|, maxChars, headChars, tailChars, scale)
      && (headChars.None? && tailChars.None? ==> 0 <= |result.value.tail| - |result.value.head| <= 1)
      && (tailChars.None? ==> |result.value.marker| == HeadMarkerSize(|text|, maxChars))
  {
    if maxChars < 0 {
      return Err("max_chars must be non-negative");
    }
    if |text| <= maxChars {
      return Ok(Pruned(text, text, "", "", 0));
    }
    var plan := SettlePlan(|text|, maxChars, headChars, tailChars, scale);
    AssembledFits(text, maxChars, headChars, tailChars, scale);
    AssembledDivides(text, maxChars, headChars, tailChars, scale);
    if tailChars.None? { HeadMarkerIsFinal(|text|, maxChars, headChars, scale); }
    var pruned := Assemble(text, plan, maxChars);
    if plan.marker.Full? && pruned.marker == Text(Full(pruned.omitted), maxChars) {
      FullTextIsInjective(plan.marker.omitted, pruned.omitted, maxChars);
    }
    result := Ok(pruned);
  }

  /** 200 characters under a bound of 100 keep 35 at each end of a marker of 30. */
  lemma EvenSplitExample(scale: Scaling)
    requires ScalesWithin(scale)
    ensures var p := FinalPlan(200, 100, None, None, scale);
      p.head == 35 && p.tail == 35 && p.marker == Full(130) && Size(p.marker, 100) == 30
  {
    assert Digits(100) == 3 && Digits(130) == 3;
    HeadMarkerIsFinal(200, 100, None, scale);
    FinalPlanFits(200, 100, None, None, scale);
    var p, room := FinalPlanDivides(200, 100, None, None, scale);
  }

  /** The overrun happens: for a 100-character text under a bound of 50, a head of 60 alone. */
  lemma HeadAloneOverruns()
    ensures HeadOverruns(100, 50, Some(60), None)
  {
  }
}
