/** The value of one waiter list of the address-keyed wait table: a FIFO of records, each
    keyed by the exact address its owner waits on. */
module WaitQueue {

  /** One linked waiter record: the call that owns it and the address it waits on. */
  datatype Entry = Entry(id: nat, addr: nat)

  ghost predicate Distinct(q: seq<Entry>) {
    forall i, j | 0 <= i < j < |q| :: q[i].id != q[j].id
  }

  /** The list without the record of `id`. */
  function Remove(q: seq<Entry>, id: nat): seq<Entry> {
    if q == [] then [] else if q[0].id == id then q[1..] else [q[0]] + Remove(q[1..], id)
  }

  /** The records that stay linked after a wake on `addr` (the first match only, or all). */
  function Kept(q: seq<Entry>, addr: nat, all: bool): seq<Entry> {
    if q == [] then []
    else if q[0].addr != addr then [q[0]] + Kept(q[1..], addr, all)
    else if all then Kept(q[1..], addr, all)
    else q[1..]
  }

  /** The records a wake on `addr` hands off, in the order in which it marks them. */
  function Marked(q: seq<Entry>, addr: nat, all: bool): seq<Entry> {
    if q == [] then []
    else if q[0].addr != addr then Marked(q[1..], addr, all)
    else if all then [q[0]] + Marked(q[1..], addr, all)
    else [q[0]]
  }

  /** The sub-list of one address, order preserved. */
  function Only(q: seq<Entry>, addr: nat): seq<Entry> {
    if q == [] then []
    else if q[0].addr == addr then [q[0]] + Only(q[1..], addr)
    else Only(q[1..], addr)
  }

  lemma {:induction false} OnlyMembers(q: seq<Entry>, addr: nat)
    ensures forall e :: e in Only(q, addr) <==> e in q && e.addr == addr
  {
    if q != [] {
      OnlyMembers(q[1..], addr);
      assert q == [q[0]] + q[1..];
    }
  }

  /** A wake takes a prefix of its own address's sub-list (everything for wake_all, at most
      the first for wake_one) and leaves every other address's sub-list exactly as it was. */
  lemma {:induction false} WakeSplitsQueue(q: seq<Entry>, addr: nat, all: bool)
    ensures Only(q, addr) == Marked(q, addr, all) + Only(Kept(q, addr, all), addr)
    ensures all ==> Only(Kept(q, addr, all), addr) == []
    ensures !all ==> |Marked(q, addr, all)| == if Only(q, addr) == [] then 0 else 1
    ensures forall other | other != addr :: Only(Kept(q, addr, all), other) == Only(q, other)
  {
    if q != [] {
      WakeSplitsQueue(q[1..], addr, all);
      if q[0].addr != addr {
        assert ([q[0]] + Kept(q[1..], addr, all))[1..] == Kept(q[1..], addr, all);
      }
    }
  }

  /** Nothing is lost or invented: a linked record is either kept or handed off. */
  lemma {:induction false} WakePartitions(q: seq<Entry>, addr: nat, all: bool)
    ensures forall e :: e in q <==> e in Kept(q, addr, all) || e in Marked(q, addr, all)
    ensures forall e | e in Marked(q, addr, all) :: e.addr == addr
    ensures |q| == |Kept(q, addr, all)| + |Marked(q, addr, all)|
  {
    if q != [] {
      WakePartitions(q[1..], addr, all);
      assert q == [q[0]] + q[1..];
      assert q[0] in q;
    }
  }

  /** Unlinking removes exactly the record it was asked for. */
  lemma {:induction false} RemoveIsExact(q: seq<Entry>, id: nat)
    requires Distinct(q)
    ensures Distinct(Remove(q, id))
    ensures forall e :: e in Remove(q, id) <==> e in q && e.id != id
  {
    if q != [] {
      assert q == [q[0]] + q[1..];
      RemoveIsExact(q[1..], id);
      forall e | e in q[1..] ensures e.id != q[0].id {
        var j :| 0 <= j < |q[1..]| && q[1..][j] == e;
        assert q[j + 1] == e;
      }
      if q[0].id != id {
        ConsDistinct(q[0], Remove(q[1..], id));
      }
    }
  }

  /** ... and leaves the sub-list of every other address as it was. */
  lemma {:induction false} RemoveLeavesOthers(q: seq<Entry>, id: nat, addr: nat)
    requires forall i | 0 <= i < |q| && q[i].id == id :: q[i].addr != addr
    ensures Only(Remove(q, id), addr) == Only(q, addr)
  {
    if q != [] && q[0].id != id {
      RemoveLeavesOthers(q[1..], id, addr);
      assert Remove(q, id)[1..] == Remove(q[1..], id);
    }
  }

  /** Both halves of a wake inherit distinctness, and share no record. */
  lemma {:induction false} WakeKeepsDistinct(q: seq<Entry>, addr: nat, all: bool)
    requires Distinct(q)
    ensures Distinct(Kept(q, addr, all)) && Distinct(Marked(q, addr, all))
    ensures forall e, f | e in Kept(q, addr, all) && f in Marked(q, addr, all) :: e.id != f.id
  {
    if q != [] {
      assert q == [q[0]] + q[1..];
      WakeKeepsDistinct(q[1..], addr, all);
      WakePartitions(q[1..], addr, all);
      assert forall e | e in q[1..] :: e.id != q[0].id;
      if q[0].addr != addr {
        ConsDistinct(q[0], Kept(q[1..], addr, all));
      } else if all {
        ConsDistinct(q[0], Marked(q[1..], addr, all));
      }
    }
  }

  lemma ConsDistinct(e: Entry, q: seq<Entry>)
    requires Distinct(q) && forall f | f in q :: f.id != e.id
    ensures Distinct([e] + q)
  {
    var r := [e] + q;
    forall i, j | 0 <= i < j < |r| ensures r[i].id != r[j].id {
      assert r[j] == q[j - 1] && q[j - 1] in q;
      if i > 0 { assert r[i] == q[i - 1]; }
    }
  }

  /** The list is ordered by the time of each record's latest link. */
  ghost predicate Ascending(q: seq<Entry>, stamp: map<nat, nat>) {
    && (forall i | 0 <= i < |q| :: q[i].id in stamp)
    && (forall i, j | 0 <= i < j < |q| :: stamp[q[i].id] < stamp[q[j].id])
  }

  lemma AscendingIsDistinct(q: seq<Entry>, stamp: map<nat, nat>)
    requires Ascending(q, stamp)
    ensures Distinct(q)
  {
  }

  lemma AscendingTail(q: seq<Entry>, stamp: map<nat, nat>)
    requires q != [] && Ascending(q, stamp)
    ensures Ascending(q[1..], stamp)
    ensures q[0].id in stamp
    ensures forall e | e in q[1..] :: e.id in stamp && stamp[q[0].id] < stamp[e.id]
  {
    forall e | e in q[1..] ensures e.id in stamp && stamp[q[0].id] < stamp[e.id] {
      var j :| 0 <= j < |q[1..]| && q[1..][j] == e;
      assert q[j + 1] == e;
    }
  }

  lemma ConsAscending(e: Entry, q: seq<Entry>, stamp: map<nat, nat>)
    requires Ascending(q, stamp) && e.id in stamp
    requires forall f | f in q :: f.id in stamp && stamp[e.id] < stamp[f.id]
    ensures Ascending([e] + q, stamp)
  {
    assert forall i | 0 <= i < |q| :: q[i] in q;
  }

  lemma {:induction false} KeptAscending(q: seq<Entry>, addr: nat, all: bool, stamp: map<nat, nat>)
    requires Ascending(q, stamp)
    ensures Ascending(Kept(q, addr, all), stamp)
  {
    if q != [] {
      AscendingTail(q, stamp);
      KeptAscending(q[1..], addr, all, stamp);
      WakePartitions(q[1..], addr, all);
      if q[0].addr != addr {
        ConsAscending(q[0], Kept(q[1..], addr, all), stamp);
      }
    }
  }

  lemma {:induction false} RemoveAscending(q: seq<Entry>, id: nat, stamp: map<nat, nat>)
    requires Ascending(q, stamp)
    ensures Ascending(Remove(q, id), stamp)
  {
    if q != [] {
      AscendingTail(q, stamp);
      AscendingIsDistinct(q[1..], stamp);
      RemoveAscending(q[1..], id, stamp);
      RemoveIsExact(q[1..], id);
      if q[0].id != id {
        ConsAscending(q[0], Remove(q[1..], id), stamp);
      }
    }
  }

  /** wake_one is FIFO: it takes the record of its address with the oldest latest link. */
  lemma {:induction false} WakeOneTakesOldest(q: seq<Entry>, addr: nat, stamp: map<nat, nat>)
    requires Ascending(q, stamp)
    ensures forall e, f | e in Marked(q, addr, false) && f in q && f.addr == addr ::
              e.id in stamp && f.id in stamp && stamp[e.id] <= stamp[f.id]
  {
    if q != [] {
      assert q == [q[0]] + q[1..];
      AscendingTail(q, stamp);
      WakeOneTakesOldest(q[1..], addr, stamp);
    }
  }

  /** The ids of a duplicate-free list, as a set of the same size. */
  function Ids(q: seq<Entry>): set<nat> {
    set e | e in q :: e.id
  }

  lemma {:induction false} IdsCount(q: seq<Entry>)
    requires Distinct(q)
    ensures |Ids(q)| == |q|
  {
    if q != [] {
      var t := q[..|q| - 1];
      assert q == t + [q[|q| - 1]];
      IdsCount(t);
      assert Ids(q) == Ids(t) + {q[|q| - 1].id};
    }
  }

  lemma {:induction false} RemoveAbsent(q: seq<Entry>, id: nat)
    requires forall i | 0 <= i < |q| :: q[i].id != id
    ensures Remove(q, id) == q
  {
    if q != [] {
      RemoveAbsent(q[1..], id);
    }
  }

  lemma {:induction false} RemoveAt(q: seq<Entry>, k: nat)
    requires k < |q| && forall i | 0 <= i < k :: q[i].id != q[k].id
    ensures Remove(q, q[k].id) == q[..k] + q[k + 1..]
  {
    if k > 0 {
      RemoveAt(q[1..], k - 1);
    }
  }

  /** A wake scan standing at position `k` of what is left (`now`) of the list `q`, with `n`
      records already taken out. */
  ghost predicate Scanned(now: seq<Entry>, k: nat, n: nat, q: seq<Entry>, addr: nat, all: bool) {
    && k <= |now|
    && now[..k] + Kept(now[k..], addr, all) == Kept(q, addr, all)
    && n + |Marked(now[k..], addr, all)| == |Marked(q, addr, all)|
  }

  lemma ScanStart(q: seq<Entry>, addr: nat, all: bool)
    ensures Scanned(q, 0, 0, q, addr, all)
  {
    assert q[0..] == q;
  }

  lemma ScanKeep(now: seq<Entry>, k: nat, n: nat, q: seq<Entry>, addr: nat, all: bool)
    requires Scanned(now, k, n, q, addr, all) && k < |now| && now[k].addr != addr
    ensures Scanned(now, k + 1, n, q, addr, all)
  {
    assert now[k..][1..] == now[k + 1..];
    assert now[..k + 1] == now[..k] + [now[k]];
  }

  lemma ScanHand(now: seq<Entry>, k: nat, n: nat, q: seq<Entry>, addr: nat, all: bool)
    requires Scanned(now, k, n, q, addr, all) && k < |now| && now[k].addr == addr
    ensures all ==> Scanned(now[..k] + now[k + 1..], k, n + 1, q, addr, all)
    ensures !all ==> now[..k] + now[k + 1..] == Kept(q, addr, all) && n + 1 == |Marked(q, addr, all)|
  {
    assert now[k..][1..] == now[k + 1..];
    var left := now[..k] + now[k + 1..];
    assert left[..k] == now[..k] && left[k..] == now[k + 1..];
  }

  lemma ScanEnd(now: seq<Entry>, n: nat, q: seq<Entry>, addr: nat, all: bool)
    requires Scanned(now, |now|, n, q, addr, all)
    ensures now == Kept(q, addr, all) && n == |Marked(q, addr, all)|
  {
    assert now[|now|..] == [] && now[..|now|] == now;
  }
}
