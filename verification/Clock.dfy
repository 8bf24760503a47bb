/** Scaling of host ticks to nanoseconds in 64-bit arithmetic. */
module Clock {
  import opened Arithmetic

  const HALF_WIDTH: nat := 0x1_0000_0000

  type u32 = n: nat | n < HALF_WIDTH

  datatype Timebase = Timebase(numer: u32, denom: u32)

  /** What the calibration stores: the host's answer, or 1/1 if that is unusable. */
  function Calibrated(ok: bool, tb: Timebase): (r: Timebase)
    ensures r.numer > 0 && r.denom > 0
    ensures ok && tb.numer > 0 && tb.denom > 0 ==> r == tb
    ensures !ok || tb.numer == 0 || tb.denom == 0 ==> r.numer == r.denom
  {
    if !ok || tb.denom == 0 || tb.numer == 0 then Timebase(1, 1) else tb
  }

  /** The exact reading: ticks times the ratio, rounded down. */
  function Exact(t: word, tb: Timebase): nat
    requires tb.denom > 0
  {
    t * tb.numer / tb.denom
  }

  lemma ScalingIdentity(t: word, tb: Timebase)
    requires tb.denom > 0
    ensures var q, r := t / tb.denom, t % tb.denom;
      Exact(t, tb) == q * tb.numer + Over(r * tb.numer, tb.denom)
  {
    var n: nat, d: nat := tb.numer, tb.denom;
    var q, r := t / d, t % d;
    Divide(t, d);
    ProductSplits(q, r, n, d);
    QuotientOfSum(q * n, r * n, d);
  }

  lemma ProductSplits(q: nat, r: nat, n: nat, d: nat)
    ensures (q * d + r) * n == (q * n) * d + r * n
  {
  }

  lemma ProductBelow(a: nat, b: nat, x: nat, y: nat)
    requires a < x && b < y
    ensures a * b < x * y
  {
    assert a * b <= a * y < x * y;
  }

  /** 64-bit product and quotient. */
  function Times(a: nat, b: nat): word {
    Wrap(a * b)
  }

  function Over(a: nat, d: nat): nat
    requires d > 0
  {
    a / d
  }

  /** Whether an operation of the scaling leaves the 64-bit range. */
  ghost predicate Overflows(t: word, tb: Timebase)
    requires tb.denom > 0
  {
    var q, r := t / tb.denom, t % tb.denom;
    || q * tb.numer >= WIDTH || r * tb.numer >= WIDTH
    || Times(q, tb.numer) + Over(Times(r, tb.numer), tb.denom) >= WIDTH
  }

  /** The reading as the code computes it, every operation wrapped to 64 bits: it is the exact
      reading modulo the width, and no operation wraps if and only if the exact reading fits. */
  method Now(t: word, tb: Timebase) returns (ns: word)
    requires tb.denom > 0
    ensures ns == Wrap(Exact(t, tb))
    ensures Overflows(t, tb) <==> Exact(t, tb) >= WIDTH
    ensures !Overflows(t, tb) ==> ns == Exact(t, tb)
  {
    hide Wrap, Exact, Overflows, Times, Over;
    var q := t / tb.denom;
    var r := t % tb.denom;
    ns := Wrap(Times(q, tb.numer) + Over(Times(r, tb.numer), tb.denom));
    ReadingExact(t, tb, q, r);
    OverflowIff(t, tb);
  }

  lemma ReadingExact(t: word, tb: Timebase, q: nat, r: nat)
    requires tb.denom > 0 && q == t / tb.denom && r == t % tb.denom
    ensures Wrap(Times(q, tb.numer) + Over(Times(r, tb.numer), tb.denom)) == Wrap(Exact(t, tb))
  {
    hide Wrap, Exact;
    RemainderFits(r, tb);
    ScalingIdentity(t, tb);
    SumWraps(q * tb.numer, Over(r * tb.numer, tb.denom));
  }

  lemma OverflowIff(t: word, tb: Timebase)
    requires tb.denom > 0
    ensures Overflows(t, tb) <==> Exact(t, tb) >= WIDTH
  {
    hide Wrap, Exact, Times, Over;
    var q, r := t / tb.denom, t % tb.denom;
    RemainderFits(r, tb);
    ProductsWrap(q, r, tb.numer);
    ScalingIdentity(t, tb);
    SumWraps(q * tb.numer, Over(r * tb.numer, tb.denom));
  }

  lemma ProductsWrap(q: nat, r: nat, n: nat)
    requires r * n < WIDTH
    ensures Times(q, n) == Wrap(q * n) && Times(r, n) == r * n
  {
    hide Wrap;
  }

  lemma SumWraps(a: nat, b: nat)
    ensures Wrap(Wrap(a) + b) == Wrap(a + b)
    ensures a >= WIDTH || Wrap(a) + b >= WIDTH <==> a + b >= WIDTH
  {
    hide Wrap;
    WrapOfSum(a, b);
  }

  lemma RemainderFits(r: nat, tb: Timebase)
    requires r < tb.denom
    ensures r * tb.numer < WIDTH
  {
    ProductBelow(r, tb.numer, HALF_WIDTH, HALF_WIDTH);
  }

  lemma WrapOfSum(a: nat, b: nat)
    ensures Wrap(Wrap(a) + b) == Wrap(a + b)
  {
    Divide(a, WIDTH);
    QuotientOfSum(a / WIDTH, a % WIDTH + b, WIDTH);
  }

  /** Later ticks never read earlier: the exact reading, and with it every reading that fits, is
      monotone in the tick count. */
  lemma LaterReadsLater(t: word, u: word, tb: Timebase)
    requires tb.denom > 0 && t <= u
    ensures Exact(t, tb) <= Exact(u, tb)
    ensures Exact(u, tb) < WIDTH ==> Wrap(Exact(t, tb)) <= Wrap(Exact(u, tb))
  {
    ProductMonotone(t, u, tb.numer);
    QuotientMonotone(t * tb.numer, u * tb.numer, tb.denom);
  }

  /** The reported resolution is one tick's length rounded up, and never zero. */
  method Resolution(tb: Timebase) returns (res: nat)
    requires tb.numer > 0 && tb.denom > 0
    ensures 1 <= res < WIDTH && (res - 1) * tb.denom < tb.numer <= res * tb.denom
  {
    var n: nat, d: nat := tb.numer, tb.denom;
    var ceiling := (n + d - 1) / d;
    res := if ceiling > 0 then ceiling else 1;
    Divide(n + d - 1, d);
    QuotientMonotone(d, n + d - 1, d);
    QuotientUnique(d, 1, 0, d);
    ProductMonotone(1, d, ceiling);
    Predecessor(ceiling, d);
  }

  lemma Predecessor(c: nat, d: nat)
    requires c > 0
    ensures (c - 1) * d == c * d - d
  {
  }
}
