/** Sizes and geometry of one guarded stack, in 64-bit arithmetic that wraps wherever the code's
    would, and the geometry test of a context built on it. */
module StackLayout {
  import opened Wrappers
  import opened Arithmetic

  const SIZE_MAX: nat := 0xFFFF_FFFF_FFFF_FFFF

  /** round_up, each operation wrapped. */
  function RoundUp(n: word, align: word): word
    requires align > 0
  {
    Wrap(Wrap(n + align - 1) / align * align)
  }

  /** The same over unbounded integers: the least multiple of `align` that is not below `n`. */
  function Ceiling(n: nat, align: nat): nat
    requires align > 0
  {
    (n + align - 1) / align * align
  }

  lemma {:induction false} CeilingIsLeast(n: nat, align: nat, k: nat)
    requires align > 0
    ensures Ceiling(n, align) % align == 0
    ensures n <= Ceiling(n, align) < n + align
    ensures n <= k * align ==> Ceiling(n, align) <= k * align
  {
    var q := (n + align - 1) / align;
    Divide(n + align - 1, align);
    MultipleMod(q, align);
    if k < q {
      ProductMonotone(k + 1, q, align);
    } else {
      ProductMonotone(q, k, align);
    }
  }

  /** A multiple of `d` is its own ceiling. */
  lemma CeilingOfMultiple(n: nat, d: nat)
    requires d > 0 && n % d == 0
    ensures Ceiling(n, d) == n
  {
    CeilingIsLeast(n, d, n / d);
    assert n == n / d * d;
  }

  lemma RoundUpExact(n: word, align: word)
    requires align > 0 && n <= SIZE_MAX - (align - 1)
    ensures RoundUp(n, align) == Ceiling(n, align)
  {
    hide Wrap;
    Divide(n + align - 1, align);
  }

  datatype Request = Request(reserve: word, commit: word, guard: word)
  datatype Layout = Layout(guard: word, usable: word, total: word, commit: word)

  function Usable(ps: word, q: Request): word {
    if q.reserve == 0 then ps else q.reserve
  }

  /** The sizes mjs_stack_alloc settles on, or None where it returns -EINVAL. */
  function Plan(ps: word, q: Request): Option<Layout>
    requires ps > 0
  {
    if q.guard == 0 || q.guard % ps != 0 || q.guard > Wrap(SIZE_MAX - (ps - 1)) then None
    else if Usable(ps, q) > Wrap(SIZE_MAX - (ps - 1)) then None
    else
      var guard, usable := RoundUp(q.guard, ps), RoundUp(Usable(ps, q), ps);
      if guard > Wrap(SIZE_MAX - usable) || q.commit > Wrap(SIZE_MAX - (ps - 1)) then None
      else
        var commit := RoundUp(q.commit, ps);
        Some(Layout(guard, usable, Wrap(guard + usable), if commit > usable then usable else commit))
  }

  /** The layout a request asks for, over unbounded integers. */
  ghost predicate Ideal(ps: word, q: Request, l: Layout)
    requires ps > 0
  {
    && l.guard == q.guard && l.usable == Ceiling(Usable(ps, q), ps)
    && l.total == l.guard + l.usable
    && l.commit == if Ceiling(q.commit, ps) > l.usable then l.usable else Ceiling(q.commit, ps)
  }

  /** For every accepted request no operation wraps: the sizes are those of unbounded arithmetic. */
  lemma AcceptedPlansAreIdeal(ps: word, q: Request)
    requires ps > 0 && Plan(ps, q).Some?
    ensures Ideal(ps, q, Plan(ps, q).value)
  {
    hide Ceiling, RoundUp;
    RoundUpExact(q.guard, ps);
    CeilingOfMultiple(q.guard, ps);
    RoundUpExact(Usable(ps, q), ps);
    RoundUpExact(q.commit, ps);
  }

  /** On pages that divide the address space a request is accepted exactly when its guard is a
      positive whole number of pages, guard and usable span together are representable, and the
      commit size is not within one page of the top of the range. */
  lemma AcceptedIff(ps: word, q: Request)
    requires ps > 0 && WIDTH % ps == 0
    ensures Plan(ps, q).Some? <==> Acceptable(ps, q)
  {
    hide Ceiling, Plan, Acceptable;
    if Plan(ps, q).Some? {
      AcceptedIsAcceptable(ps, q);
    }
    if Acceptable(ps, q) {
      AcceptableIsAccepted(ps, q);
    }
  }

  ghost predicate Acceptable(ps: word, q: Request)
    requires ps > 0
  {
    && q.guard > 0 && q.guard % ps == 0
    && q.guard + Ceiling(Usable(ps, q), ps) < WIDTH
    && q.commit <= WIDTH - ps
  }

  lemma AcceptedIsAcceptable(ps: word, q: Request)
    requires ps > 0 && Plan(ps, q).Some?
    ensures Acceptable(ps, q)
  {
    hide Ceiling, RoundUp, Wrap;
    AcceptedPlansAreIdeal(ps, q);
  }

  lemma AcceptableIsAccepted(ps: word, q: Request)
    requires ps > 0 && WIDTH % ps == 0 && Acceptable(ps, q)
    ensures Plan(ps, q).Some?
  {
    hide Ceiling, RoundUp, Wrap;
    var u := Usable(ps, q);
    CeilingIsLeast(u, ps, 0);
    MultiplesApart(q.guard + Ceiling(u, ps), ps);
    RoundUpExact(q.guard, ps);
    CeilingOfMultiple(q.guard, ps);
    RoundUpExact(u, ps);
  }

  /** A whole number of pages below the width leaves room for one more page. */
  lemma MultiplesApart(x: nat, ps: nat)
    requires ps > 0 && WIDTH % ps == 0 && x < WIDTH
    requires exists a: nat, b: nat :: x == a + b && a % ps == 0 && b % ps == 0
    ensures x <= WIDTH - ps
  {
    var a: nat, b: nat :| x == a + b && a % ps == 0 && b % ps == 0;
    SumOfMultiples(a, b, ps);
    Divide(x, ps);
    Divide(WIDTH, ps);
    if WIDTH / ps <= x / ps {
      ProductMonotone(WIDTH / ps, x / ps, ps);
    } else {
      ProductMonotone(x / ps + 1, WIDTH / ps, ps);
    }
  }

  /** The committed span is whole pages at the top of the region, inside the usable span, and
      covers what was asked for or all there is; it never reaches into the guard. */
  lemma CommitMissesGuard(ps: word, q: Request)
    requires ps > 0 && Plan(ps, q).Some?
    ensures var l := Plan(ps, q).value;
      && l.guard >= ps && l.usable >= ps && l.guard <= l.total - l.commit <= l.total
      && l.commit % ps == 0 && l.total % ps == 0
      && (l.commit >= q.commit || l.commit == l.usable)
  {
    hide Ceiling, RoundUp;
    var l := Plan(ps, q).value;
    AcceptedPlansAreIdeal(ps, q);
    CeilingIsLeast(Usable(ps, q), ps, 0);
    CeilingIsLeast(q.commit, ps, 0);
    AtLeastOne(q.guard, ps);
    AtLeastOne(l.usable, ps);
    SumOfMultiples(l.guard, l.usable, ps);
  }

  lemma AtLeastOne(x: nat, d: nat)
    requires x > 0 && d > 0 && x % d == 0
    ensures x >= d
  {
  }

  lemma SumOfMultiples(a: nat, b: nat, d: nat)
    requires d > 0 && a % d == 0 && b % d == 0
    ensures (a + b) % d == 0
  {
    Divide(a, d);
    QuotientOfSum(a / d, b, d);
  }

  // ---- a context on the stack ----

  /** ms_context_init's test on a non-NULL record and entry: the stack top it goes on with. */
  function ContextTop(low: word, size: word): Option<word> {
    if low == 0 || size == 0 || size % 16 != 0 || low % 16 != 0 || low > Wrap(SIZE_MAX - size) then None
    else Some(Wrap(low + size))
  }

  /** A context accepts a span exactly when it is not empty, both its start and its size are whole
      16-byte units, and it ends below the top of the address space; it then starts at the end. */
  lemma ContextTopIff(low: word, size: word)
    ensures ContextTop(low, size).Some? <==> low > 0 && size > 0 && low % 16 == 0 && size % 16 == 0 && low + size < WIDTH
    ensures ContextTop(low, size).Some? ==> ContextTop(low, size).value == low + size
  {
  }

  lemma DividesThrough(x: nat, ps: nat)
    requires ps > 0 && ps % 16 == 0 && x % ps == 0
    ensures x % 16 == 0
  {
    var k, m := x / ps, ps / 16;
    assert x == k * ps == k * (m * 16) == (k * m) * 16;
    MultipleMod(k * m, 16);
  }

  /** A stack placed by the host at a page boundary gives a context its span [guard_low, top)
      exactly when the region ends below the last address; the context then starts at the
      16-aligned top the allocator reported. */
  lemma ContextAcceptsIff(ps: word, q: Request, base: word)
    requires ps > 0 && ps % 16 == 0 && Plan(ps, q).Some?
    requires base % ps == 0 && base + Plan(ps, q).value.total <= WIDTH
    ensures var l := Plan(ps, q).value;
      var low, top := Wrap(base + l.guard), Wrap(base + l.total);
      && (ContextTop(low, Wrap(top - low)).Some? <==> base + l.total < WIDTH)
      && (base + l.total < WIDTH ==> ContextTop(low, Wrap(top - low)) == Some(top) && top % 16 == 0 && low + l.usable == top)
  {
    hide Plan;
    var l := Plan(ps, q).value;
    AcceptedPlansAreIdeal(ps, q);
    CommitMissesGuard(ps, q);
    PlanGuard(ps, q);
    CeilingIsLeast(Usable(ps, q), ps, 0);
    SumOfMultiples(base, l.guard, ps);
    SumOfMultiples(base, l.total, ps);
    DividesThrough(base + l.guard, ps);
    DividesThrough(base + l.total, ps);
    DividesThrough(l.usable, ps);
    Spans(base, l);
  }

  lemma PlanGuard(ps: word, q: Request)
    requires ps > 0 && Plan(ps, q).Some?
    ensures q.guard % ps == 0
  {
  }

  lemma Spans(base: word, l: Layout)
    requires l.total == l.guard + l.usable && l.usable > 0 && l.guard > 0 && base + l.total <= WIDTH
    ensures Wrap(base + l.guard) == base + l.guard
    ensures Wrap(Wrap(base + l.total) - Wrap(base + l.guard)) == l.usable
    ensures base + l.total < WIDTH ==> Wrap(base + l.total) == base + l.total
  {
  }
}
