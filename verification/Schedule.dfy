/** The factor-four spill schedule (src/list.zig:174-189): which levels spill at
    an advance, and when a merge starts from an empty destination. */
module Schedule {
  import opened Wire

  const MAX_DEPTH: nat := 31

  /** The advance interval between spills out of a level: 2 * 4^level. */
  function Half(level: nat): (h: nat)
    ensures h >= 2
  {
    if level == 0 then 2 else 4 * Half(level - 1)
  }

  predicate ShouldSpill(depth: nat, n: nat, level: nat) {
    level + 1 != depth && n % Half(level) == 0
  }

  predicate MergeWithEmpty(depth: nat, n: nat, level: nat) {
    level != 0 && level + 1 != depth && (n / Half(level - 1)) % 4 == 3
  }

  lemma {:induction false} HalfMonotone(i: nat, j: nat)
    requires i <= j
    ensures Half(i) <= Half(j)
    decreases j
  {
    if i < j { HalfMonotone(i, j - 1); }
  }

  lemma HalfAt30()
    ensures Half(30) == 0x2000_0000_0000_0000
  {
    assert Half(5) == 2048;
    assert Half(10) == 0x20_0000 by { assert Half(8) == 0x2_0000; }
    assert Half(13) == 0x800_0000;
    assert Half(16) == 0x2_0000_0000;
    assert Half(19) == 0x80_0000_0000;
    assert Half(22) == 0x2000_0000_0000;
    assert Half(25) == 0x8_0000_0000_0000;
    assert Half(28) == 0x200_0000_0000_0000;
  }

  /** The half is the single set bit the source shifts into place, and it fits a
      64-bit word for every level of the deepest profile. */
  lemma {:induction false} HalfIsShift(level: nat)
    ensures Half(level) == Pow2(2 * level + 1)
    ensures level < MAX_DEPTH ==> 2 * Half(level) <= U64_LIMIT
  {
    if level > 0 {
      HalfIsShift(level - 1);
      assert Pow2(2 * level + 1) == 2 * Pow2(2 * level);
    }
    if level < MAX_DEPTH {
      HalfMonotone(level, 30);
      HalfAt30();
    }
  }

  // ----- division by one step ----------------------------------------------

  lemma Distribute(a: int, b: int, h: int)
    ensures (a - b) * h == a * h - b * h
  {
  }

  lemma AtLeastOnce(d: int, h: nat)
    requires d >= 1
    ensures d * h >= h
  {
  }

  lemma Remainder(n: nat, h: nat)
    requires h > 0
    ensures n == (n / h) * h + n % h && n % h < h
  {
  }

  lemma QuotientNatural(n: nat, h: nat)
    requires h > 0
    ensures n / h >= 0
  {
    var q := n / h;
    Remainder(n, h);
    if q < 0 {
      AtLeastOnce(-q, h);
      Distribute(0, q, h);
    }
  }

  lemma QuotientUnique(n: nat, q: nat, r: nat, h: nat)
    requires h > 0 && n == q * h + r && r < h
    ensures n / h == q && n % h == r
  {
    var q' := n / h;
    Remainder(n, h);
    Distribute(q, q', h);
    Distribute(q', q, h);
    if q' < q { AtLeastOnce(q - q', h); }
    if q' > q { AtLeastOnce(q' - q, h); }
  }

  /** One advance moves the quotient exactly when it lands on a multiple. */
  lemma DivStep(n: nat, h: nat)
    requires h > 0
    ensures (n + 1) % h == 0 ==> (n + 1) / h == n / h + 1 && n + 1 == (n / h + 1) * h
    ensures (n + 1) % h != 0 ==> (n + 1) / h == n / h && (n + 1) % h == n % h + 1
  {
    var q, r := n / h, n % h;
    assert n == q * h + r;
    if r + 1 < h {
      QuotientUnique(n + 1, q, r + 1, h);
    } else {
      assert n + 1 == (q + 1) * h + 0;
      QuotientUnique(n + 1, q + 1, 0, h);
    }
  }

  lemma QuarterSplit(a: nat, b: nat, h: nat)
    requires b < 4
    ensures (4 * a + b) * h == a * (4 * h) + b * h && b * h <= 3 * h
  {
    Distribute(4 * a + b, b, h);
    assert (4 * a) * h == a * (4 * h);
    Distribute(3, b, h);
  }

  /** A multiple of 4h is a multiple of h whose quotient is a multiple of four. */
  lemma QuarterOf(n: nat, h: nat)
    requires h > 0
    ensures n % (4 * h) == 0 <==> n % h == 0 && (n / h) % 4 == 0
    ensures n / (4 * h) == (n / h) / 4
  {
    var q, r := n / h, n % h;
    var a, b := q / 4, q % 4;
    Remainder(n, h);
    QuarterSplit(a, b, h);
    QuotientUnique(n, a, b * h + r, 4 * h);
    if b > 0 { AtLeastOnce(b, h); }
  }

  lemma AtLeast(n: nat, h: nat)
    requires h > 0
    ensures n >= h <==> n / h >= 1
    ensures n >= 2 * h <==> n / h >= 2
  {
    var q, r := n / h, n % h;
    assert n == q * h + r;
    if q >= 2 { assert q * h >= 2 * h; }
  }

  /** The largest multiple of `h` that is at most `n`. */
  function RoundDown(n: nat, h: nat): nat
    requires h > 0
  {
    n - n % h
  }

  lemma RoundDownFacts(n: nat, h: nat)
    requires h > 0
    ensures RoundDown(n, h) == (n / h) * h && RoundDown(n, h) % h == 0 && RoundDown(n, h) / h == n / h
    ensures RoundDown(n, h) <= n < RoundDown(n, h) + h
  {
    var q := n / h;
    assert n == q * h + n % h;
    QuotientUnique(q * h, q, 0, h);
  }

  // ----- the facts the scheduler relies on ---------------------------------

  /** A level that spills feeds on one that spills at the same advance. */
  lemma SpillsBelow(depth: nat, n: nat, level: nat)
    requires 0 < level && ShouldSpill(depth, n, level) && level < depth
    ensures ShouldSpill(depth, n, level - 1)
  {
    QuarterOf(n, Half(level - 1));
  }

  /** A destination about to spill has been merged from empty since its last
      input, and has such an input. */
  lemma {:induction false} SpillingDestination(depth: nat, n: nat, level: nat)
    requires 0 < level < depth && ShouldSpill(depth, n + 1, level)
    ensures MergeWithEmpty(depth, n, level) && n >= Half(level - 1)
  {
    var h := Half(level - 1);
    QuarterOf(n + 1, h);
    DivStep(n, h);
    AtLeast(n, h);
  }

  /** A destination that takes an input without spilling was merged in full. */
  lemma RestingDestination(depth: nat, n: nat, level: nat)
    requires 0 < level < depth && ShouldSpill(depth, n + 1, level - 1) && !ShouldSpill(depth, n + 1, level)
    ensures !MergeWithEmpty(depth, n, level)
  {
    var h := Half(level - 1);
    QuarterOf(n + 1, h);
    DivStep(n, h);
  }

  /** Nothing about a destination changes between two inputs. */
  lemma {:induction false} IdleDestination(depth: nat, n: nat, level: nat)
    requires 0 < level < depth && !ShouldSpill(depth, n + 1, level - 1)
    ensures MergeWithEmpty(depth, n + 1, level) == MergeWithEmpty(depth, n, level)
    ensures n + 1 >= Half(level - 1) <==> n >= Half(level - 1)
    ensures n + 1 >= 2 * Half(level - 1) <==> n >= 2 * Half(level - 1)
  {
    var h := Half(level - 1);
    DivStep(n, h);
    AtLeast(n, h);
    AtLeast(n + 1, h);
  }

  lemma {:induction false} FirstSpill(depth: nat, n: nat, level: nat)
    requires ShouldSpill(depth, n + 1, level)
    ensures n + 1 >= Half(level)
    ensures n < Half(level) ==> n + 1 == Half(level)
    ensures n + 1 < 2 * Half(level) ==> n + 1 == Half(level)
  {
    var h := Half(level);
    DivStep(n, h);
    AtLeast(n, h);
    AtLeast(n + 1, h);
  }

  /** The quarter test is the explicit lookahead: rounding down to the last input
      of `level` and stepping one input interval lands on a spill of `level`. It
      holds for every sequence value, so also where that lookahead would not fit
      a 64-bit word. */
  lemma {:induction false} QuarterTestIsLookahead(depth: nat, n: nat, level: nat)
    requires 0 < level < depth
    ensures MergeWithEmpty(depth, n, level) <==> ShouldSpill(depth, RoundDown(n, Half(level - 1)) + Half(level - 1), level)
  {
    var h := Half(level - 1);
    var q := n / h;
    RoundDownFacts(n, h);
    assert q * h + h == (q + 1) * h;
    QuotientUnique((q + 1) * h, q + 1, 0, h);
    QuarterOf((q + 1) * h, h);
  }

  lemma HalfStep(level: nat)
    ensures Half(level + 1) == 4 * Half(level)
  {
  }

  /** Every interval divides the number of 64-bit words. */
  lemma {:induction false} HalfDividesWords(level: nat)
    requires level < MAX_DEPTH
    ensures U64_LIMIT % Half(level) == 0
    decreases MAX_DEPTH - level
  {
    hide Half;
    if level == 30 {
      HalfAt30();
    } else {
      HalfDividesWords(level + 1);
      HalfStep(level);
      QuarterOf(U64_LIMIT, Half(level));
    }
  }

  /** Exactly when the explicit lookahead stays below 2^64: the sequence must lie
      before the last interval of the 64-bit range. */
  lemma LookaheadFits(n: nat, level: nat)
    requires 0 < level < MAX_DEPTH && n < U64_LIMIT
    ensures RoundDown(n, Half(level - 1)) + Half(level - 1) < U64_LIMIT <==> n < U64_LIMIT - Half(level - 1)
  {
    hide Half;
    var h := Half(level - 1);
    HalfDividesWords(level - 1);
    RoundDownFacts(n, h);
    RoundDownFacts(U64_LIMIT, h);
    var q, last := n / h, U64_LIMIT / h;
    Distribute(last, q, h);
    Distribute(last, 1, h);
    Distribute(last - 1, q, h);
    if last - q >= 2 { AtLeastOnce(last - 1 - q, h); }
    if q >= last { AtLeastOnce(q - last + 1, h); Distribute(q + 1, last, h); }
  }

  /** The largest sequence is one whose lookahead does not fit. */
  lemma LookaheadOverflows()
    ensures RoundDown(U64_LIMIT - 1, Half(0)) + Half(0) == U64_LIMIT
  {
    assert (U64_LIMIT - 1) % 2 == 1;
  }
}
