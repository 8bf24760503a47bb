/** The submission ring of the io_uring backend: a power-of-two buffer addressed by 32-bit
    indices that wrap, filled by the process and emptied by the kernel through shared memory. */
module SubmissionRing {

  const U32: nat := 0x1_0000_0000

  /** 32-bit subtraction. */
  function Minus32(a: nat, b: nat): nat {
    (a - b) % U32
  }

  /** The true distance survives the wrap of both indices. */
  lemma DistanceSurvivesWrap(tail: nat, head: nat)
    requires head <= tail < head + U32
    ensures Minus32(tail % U32, head % U32) == tail - head
  {
  }

  lemma IncrementWraps(n: nat)
    ensures (n % U32 + 1) % U32 == (n + 1) % U32
  {
  }

  /** The cell of a true position: the position reduced by whole ring lengths. */
  function Cell(i: nat, e: nat): (c: nat)
    requires e > 0
    ensures c < e
  {
    if i < e then i else Cell(i - e, e)
  }

  /** A multiple of `e` strictly between -e and e is zero. */
  lemma OnlyZero(d: int, e: nat)
    requires 0 - e < d * e < e
    ensures d == 0
  {
    assert d >= 1 ==> d * e >= e;
    assert d <= -1 ==> d * e <= -1 * e;
  }

  /** A cell is a remainder. */
  lemma {:induction false} CellSpan(i: nat, e: nat) returns (q: nat)
    requires e > 0
    ensures i == q * e + Cell(i, e)
  {
    if i < e {
      q := 0;
    } else {
      var p := CellSpan(i - e, e);
      q := p + 1;
      assert q * e == p * e + e;
    }
  }

  lemma CellUnique(i: nat, e: nat, q: nat, c: nat)
    requires e > 0 && c < e && i == q * e + c
    ensures c == Cell(i, e)
  {
    var p := CellSpan(i, e);
    assert (q - p) * e == q * e - p * e;
    OnlyZero(q - p, e);
  }

  /** Masking a wrapped 32-bit index reaches the cell of the true position. */
  lemma MaskSurvivesWrap(n: nat, e: nat, k: nat)
    requires e > 0 && U32 == e * k
    ensures (n % U32) % e == Cell(n, e)
  {
    var q, r := n / U32, n % U32;
    var c := r % e;
    assert n == (q * k + r / e) * e + c by {
      assert n == q * U32 + r && r == (r / e) * e + c;
      assert q * (e * k) == q * k * e;
      assert (q * k + r / e) * e == q * k * e + (r / e) * e;
    }
    CellUnique(n, e, q * k + r / e, c);
  }

  /** Within one ring length no two positions share a cell. */
  lemma CellsDistinct(i: nat, j: nat, e: nat)
    requires e > 0 && i < j < i + e
    ensures Cell(i, e) != Cell(j, e)
  {
    var p := CellSpan(i, e);
    var q := CellSpan(j, e);
    assert (q - p) * e == q * e - p * e;
    if Cell(i, e) == Cell(j, e) {
      OnlyZero(q - p, e);
    }
  }

  /** The masking of wrapped indices works for rings of `e` entries. */
  ghost predicate Maskable(e: nat) {
    e > 0 && forall n: nat {:trigger Index(n, e)} :: Index(n, e) == Cell(n, e)
  }

  /** The source's index computation on a wrapped 32-bit position. */
  function Index(n: nat, e: nat): nat
    requires e > 0
  {
    (n % U32) % e
  }

  lemma PowerOfTwoRingsAreMaskable(e: nat, k: nat)
    requires e > 0 && U32 == e * k
    ensures Maskable(e)
  {
    forall n: nat ensures Index(n, e) == Cell(n, e) {
      MaskSurvivesWrap(n, e, k);
    }
  }

  class Ring<T(0)> {
    const entries: nat
    const sqes: array<T>
    const sqArray: array<nat>
    var sqHead: nat   // shared: advanced by the kernel
    var sqTail: nat   // shared: published by the process
    var sqeTail: nat  // local: handed out, not yet published
    ghost var staged: seq<T>  // everything ever staged, in order
    ghost var seen: seq<T>    // everything the kernel has read out of the ring, in order
    ghost var published: nat

    ghost predicate Valid()
      reads this, sqes, sqArray
    {
      && entries < U32 && Maskable(entries)
      && sqes.Length == sqArray.Length == entries && sqes as object != sqArray
      && |seen| <= published <= |staged| <= |seen| + entries
      && sqHead == |seen| % U32 && sqTail == published % U32 && sqeTail == |staged| % U32
      && seen == staged[..|seen|]
      && (forall i {:trigger staged[i]} | |seen| <= i < |staged| ::
            sqArray[Cell(i, entries)] == Cell(i, entries) && sqes[Cell(i, entries)] == staged[i])
    }

    /** What the kernel would read next, in order, through the shared memory. */
    ghost function InRing(): (r: seq<T>)
      requires Valid()
      reads this, sqes, sqArray
      ensures |r| == |staged| - |seen|
    {
      Window(|seen|, |staged| - |seen|)
    }

    ghost function Window(from: nat, n: nat): (r: seq<T>)
      requires 0 < entries && sqes.Length == entries
      reads sqes
      ensures |r| == n && forall i | 0 <= i < n :: r[i] == sqes[Cell(from + i, entries)]
    {
      if n == 0 then [] else Window(from, n - 1) + [sqes[Cell(from + n - 1, entries)]]
    }

    /** Nothing staged is lost, repeated or reordered: what was staged is what the kernel has
        read, followed by what the ring memory still holds for it. */
    lemma Conservation()
      requires Valid()
      ensures staged == seen + InRing()
    {
      forall i | |seen| <= i < |staged| ensures staged[i] == InRing()[i - |seen|] {
        assert sqes[Cell(i, entries)] == staged[i];
      }
    }

    constructor (entries: nat, blank: T)
      requires entries < U32 && Maskable(entries)
      ensures Valid() && staged == [] && seen == [] && this.entries == entries
      ensures fresh(sqes) && fresh(sqArray)
    {
      this.entries := entries;
      sqes := new T[entries](_ => blank);
      sqArray := new nat[entries](_ => 0);
      sqHead, sqTail, sqeTail := 0, 0, 0;
      staged, seen, published := [], [], 0;
    }

    /** Hand out the next cell and fill it, unless the ring is full. */
    method Stage(e: T) returns (ok: bool)
      requires Valid()
      modifies this, sqes, sqArray
      ensures Valid() && seen == old(seen)
      ensures ok == old(|staged| < |seen| + entries)
      ensures staged == if ok then old(staged) + [e] else old(staged)
      ensures ok == (|old(InRing())| < entries) && InRing() == if ok then old(InRing()) + [e] else old(InRing())
    {
      var pending := Pending();
      if pending >= entries {
        return false;
      }
      Conservation();
      Fill(e);
      Conservation();
      return true;
    }

    /** Entries handed out and not yet taken by the kernel, from the two wrapped indices. */
    method Pending() returns (n: nat)
      requires Valid()
      ensures n == |staged| - |seen|
    {
      DistanceSurvivesWrap(|staged|, |seen|);
      return Minus32(sqeTail, sqHead);
    }

    method Fill(e: T)
      requires Valid() && |staged| < |seen| + entries
      modifies this`sqeTail, this`staged, sqes, sqArray
      ensures Valid() && staged == old(staged) + [e]
    {
      ghost var n := |staged|;
      assert Index(n, entries) == Cell(n, entries);
      var idx := sqeTail % entries;
      assert idx == Cell(n, entries);
      sqes[idx] := e;
      sqArray[idx] := idx;
      IncrementWraps(n);
      sqeTail := (sqeTail + 1) % U32;
      staged := staged + [e];
      forall i | |seen| <= i < |staged|
        ensures sqArray[Cell(i, entries)] == Cell(i, entries) && sqes[Cell(i, entries)] == staged[i]
      {
        if i < n {
          CellsDistinct(i, n, entries);
          assert staged[i] == old(staged)[i];
        }
      }
    }

    /** Publish the tail and enter the kernel, which reads up to `take` of the published
        entries and reports either how many or an error, whatever it has read. */
    method Submit(minComplete: nat, take: nat, error: int) returns (rc: int)
      requires Valid() && take <= |staged| - |seen| && error <= 0
      modifies this
      ensures Valid() && staged == old(staged)
      ensures seen == if old(|staged| == |seen|) && minComplete == 0 then old(seen) else old(staged[..|seen| + take])
      ensures rc == if error == 0 || (old(|staged| == |seen|) && minComplete == 0) then |seen| - old(|seen|) else error
      ensures InRing() == if old(InRing()) == [] && minComplete == 0 then [] else old(InRing())[take..]
    {
      var pending := Pending();
      if pending == 0 && minComplete == 0 {
        return 0;
      }
      Conservation();
      sqTail, published := sqeTail, |staged|;
      KernelReads(take);
      Conservation();
      return if error == 0 then take else error;
    }

    /** The kernel's side of an enter: read `take` entries through the index array. */
    method KernelReads(take: nat)
      requires Valid() && take <= published - |seen|
      modifies this`sqHead, this`seen
      ensures Valid() && seen == old(staged[..|seen| + take])
    {
      ghost var n := |seen|;
      for j := 0 to take
        invariant |seen| == n + j && Valid()
      {
        KernelReadsOne();
      }
    }

    method KernelReadsOne()
      requires Valid() && |seen| < published
      modifies this`sqHead, this`seen
      ensures Valid() && seen == old(seen) + [staged[old(|seen|)]]
    {
      ghost var n := |seen|;
      assert Index(n, entries) == Cell(n, entries);
      assert sqArray[Cell(n, entries)] == Cell(n, entries) && sqes[Cell(n, entries)] == staged[n];
      var e := sqes[sqArray[sqHead % entries]];
      IncrementWraps(n);
      sqHead := (sqHead + 1) % U32;
      seen := seen + [e];
      assert staged[..n + 1] == staged[..n] + [staged[n]];
    }
  }

  datatype Call<T> = Staging(e: T) | Entering(minComplete: nat, take: nat, error: int)

  /** Any script of stagings and kernel entries, on a ring of any size, for any length of time:
      the accepted entries are what the kernel has read followed by what the ring still holds. */
  method Drive<T(0)>(entries: nat, ghost copies: nat, blank: T, script: seq<Call<T>>) returns (ring: Ring<T>, accepted: seq<T>)
    requires 0 < entries < U32 && U32 == entries * copies
    ensures ring.Valid() && accepted == ring.seen + ring.InRing()
  {
    PowerOfTwoRingsAreMaskable(entries, copies);
    ring := new Ring(entries, blank);
    accepted := [];
    for i := 0 to |script|
      invariant ring.Valid() && accepted == ring.staged
      invariant fresh(ring) && fresh(ring.sqes) && fresh(ring.sqArray)
    {
      match script[i] {
        case Staging(e) =>
          var ok := ring.Stage(e);
          if ok { accepted := accepted + [e]; }
        case Entering(minComplete, take, error) =>
          var pending := ring.Pending();
          var _ := ring.Submit(minComplete, if take <= pending then take else pending, if error < 0 then error else 0);
      }
    }
    ring.Conservation();
  }
}
