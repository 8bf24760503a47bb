/** The intrusive waiter list itself: records linked through their own `next` fields and a
    tail that is a pointer to the last `next` cell (or to the list head when empty). */
module WaiterList {
  import opened WaitQueue

  /** A stack-resident waiter record. Owner and address are fixed for the life of a call. */
  class Waiter {
    const key: Entry
    var woken: bool
    var linked: bool
    var next: Waiter?

    constructor (key: Entry)
      ensures this.key == key && !woken && !linked && next == null
    {
      this.key := key;
      woken, linked, next := false, false, null;
    }
  }

  /** A `Waiter **`: the cell that holds a link. */
  datatype Cell = Head | NextOf(w: Waiter)

  ghost function At(ws: seq<Waiter>, i: nat): Waiter? {
    if i < |ws| then ws[i] else null
  }

  /** The cell that holds the link to position `i`. */
  ghost function CellAt(ws: seq<Waiter>, i: nat): Cell
    requires i <= |ws|
  {
    if i == 0 then Head else NextOf(ws[i - 1])
  }

  lemma WithoutAt(ws: seq<Waiter>, ks: seq<Entry>, k: nat)
    requires k < |ws| == |ks| && forall i, j | 0 <= i < j < |ws| :: ws[i] != ws[j]
    ensures var r, s := ws[..k] + ws[k + 1..], ks[..k] + ks[k + 1..];
      && (forall i | 0 <= i < k :: r[i] == ws[i] && s[i] == ks[i])
      && (forall i | k <= i < |r| :: r[i] == ws[i + 1] && s[i] == ks[i + 1])
      && (forall i, j | 0 <= i < j < |r| :: r[i] != r[j])
      && (forall i | 0 <= i < |r| :: r[i] != ws[k])
  {
  }

  class Slot {
    var head: Waiter?
    var tail: Cell
    ghost var list: seq<Waiter>   // the linked records, oldest link first
    ghost var keys: seq<Entry>    // their keys
    ghost var repr: set<Waiter>   // the same records as a set

    ghost predicate Valid()
      reads this, repr
    {
      && |keys| == |list|
      && (forall i | 0 <= i < |list| :: list[i] in repr && list[i].key == keys[i])
      && (forall i, j | 0 <= i < j < |list| :: list[i] != list[j])
      && (forall w | w in repr :: w.linked && !w.woken)
      && (if list == [] then head == null else head == list[0] && list[|list| - 1].next == null)
      && (forall i, j | 0 <= i < j < |list| && j == i + 1 :: list[i].next == list[j])
      && tail == CellAt(list, |list|)
    }

    lemma NextIs(k: nat)
      requires Valid() && k < |list|
      ensures list[k].next == At(list, k + 1)
    {
    }

    function Load(c: Cell): Waiter?
      reads this, if c.NextOf? then {c.w} else {}
    {
      match c case Head => head case NextOf(w) => w.next
    }

    constructor ()
      ensures Valid() && keys == [] && repr == {}
    {
      head, tail := null, Head;
      list, keys, repr := [], [], {};
    }

    /** Append `w`, freshly unmarked, at the tail. */
    method Link(w: Waiter)
      requires Valid() && w !in repr
      modifies this, repr`next, w
      ensures Valid() && keys == old(keys) + [w.key] && repr == old(repr) + {w}
    {
      w.woken := false;
      w.next := null;
      w.linked := true;
      ghost var ws := list;
      assert tail.NextOf? ==> tail.w == ws[|ws| - 1];
      match tail {
        case Head => head := w;
        case NextOf(p) => p.next := w;
      }
      tail := NextOf(w);
      list, keys, repr := ws + [w], keys + [w.key], repr + {w};
      assert forall i | 0 <= i < |ws| :: list[i] == ws[i];
      assert list[|ws|] == w;
    }

    /** The pointer writes of an unlink: the cell that linked to `w` now links past it. */
    method Bypass(pp: Cell, w: Waiter, ghost k: nat)
      requires Valid() && k < |list| && pp == CellAt(list, k) && w == list[k]
      modifies this`head, this`tail, repr`next
      ensures forall u | u in repr :: u.next == if pp == NextOf(u) then old(w.next) else old(u.next)
      ensures head == if pp.Head? then old(w.next) else old(head)
      ensures tail == if old(tail) == NextOf(w) then pp else old(tail)
    {
      match pp {
        case Head => head := w.next;
        case NextOf(p) => p.next := w.next;
      }
      if tail == NextOf(w) {
        tail := pp;
      }
    }

    /** Take the record at position `k` out, given the cell that links to it. */
    method Excise(pp: Cell, w: Waiter, ghost k: nat)
      requires Valid() && k < |list| && pp == CellAt(list, k) && w == list[k]
      modifies this, repr`next
      ensures Valid() && list == old(list[..k] + list[k + 1..])
      ensures keys == old(keys[..k] + keys[k + 1..]) && repr == old(repr) - {w}
      ensures w.next == old(w.next) && Load(pp) == old(w.next)
    {
      ghost var ws, ks := list, keys;
      NextIs(k);
      assert pp.NextOf? ==> pp.w == ws[k - 1] && pp.w != w;
      Bypass(pp, w, k);
      list, keys, repr := ws[..k] + ws[k + 1..], ks[..k] + ks[k + 1..], repr - {w};
      WithoutAt(ws, ks, k);
      forall i, j | 0 <= i < j < |list| && j == i + 1 ensures list[i].next == list[j] {
        if i == k - 1 {
          assert list[j] == ws[k + 1] && pp == NextOf(ws[i]);
        } else if i < k - 1 {
          assert old(ws[i].next) == ws[j];
        } else {
          assert old(ws[i + 1].next) == ws[j + 1];
        }
      }
    }

    /** Unlink `me` if it is in the list; nothing happens otherwise. */
    method Unlink(me: Waiter)
      requires Valid()
      requires forall w | w in repr && w.key.id == me.key.id :: w == me
      modifies this, repr`next, me`linked
      ensures Valid()
      ensures keys == Remove(old(keys), me.key.id)
      ensures repr == old(repr) - (if me in old(list) then {me} else {})
      ensures me.linked == (old(me.linked) && me !in old(list))
    {
      var pp := Head;
      ghost var k := 0;
      ghost var ws := list;
      while Load(pp) != null && Load(pp) != me
        invariant k <= |ws| && list == ws && pp == CellAt(ws, k) && Load(pp) == At(ws, k)
        invariant unchanged(this) && Valid()
        invariant me.linked == old(me.linked) && forall i | 0 <= i < k :: ws[i] != me
        decreases |ws| - k
      {
        NextIs(k);
        pp := NextOf(Load(pp));
        k := k + 1;
      }
      if Load(pp) == null {
        RemoveAbsent(keys, me.key.id);
        return;
      }
      RemoveAt(keys, k);
      Excise(pp, me, k);
      me.linked := false;
    }

    /** Unlink the record at position `k` and mark it woken. */
    method HandOff(pp: Cell, w: Waiter, ghost k: nat)
      requires Valid() && k < |list| && pp == CellAt(list, k) && w == list[k]
      modifies this, repr`next, w
      ensures Valid() && list == old(list[..k] + list[k + 1..])
      ensures keys == old(keys[..k] + keys[k + 1..]) && repr == old(repr) - {w}
      ensures w.woken && !w.linked && w.next == null
      ensures pp == CellAt(list, k) && Load(pp) == At(list, k)
    {
      NextIs(k);
      Excise(pp, w, k);
      w.linked := false;
      w.next := null;
      w.woken := true;
    }

    /** A wake in progress, standing at position `k` with `handed` taken out and marked. */
    ghost predicate Waking(k: nat, n: nat, handed: set<Waiter>, q: seq<Entry>, all0: set<Waiter>, addr: nat, all: bool)
      reads this, repr, handed
    {
      && Valid() && k <= |list| && Scanned(keys, k, n, q, addr, all)
      && n == |handed| && AllHanded(handed, addr) && handed <= all0 && repr == all0 - handed
    }

    /** Stepping over a record of another address. */
    lemma PassedOver(k: nat, n: nat, handed: set<Waiter>, q: seq<Entry>, all0: set<Waiter>, addr: nat, all: bool)
      requires Waking(k, n, handed, q, all0, addr, all) && k < |list| && list[k].key.addr != addr
      ensures Waking(k + 1, n, handed, q, all0, addr, all) && list[k].next == At(list, k + 1)
    {
      NextIs(k);
      ScanKeep(keys, k, n, q, addr, all);
    }

    /** Hand off the matching record the scan stands on. */
    method HandMatch(pp: Cell, w: Waiter, addr: nat, all: bool, ghost k: nat, n: nat, ghost handed: set<Waiter>, ghost q: seq<Entry>, ghost all0: set<Waiter>)
      requires Waking(k, n, handed, q, all0, addr, all)
      requires k < |list| && pp == CellAt(list, k) && w == list[k] && w.key.addr == addr
      modifies this, repr
      ensures Valid() && |list| < old(|list|)
      ensures k <= |list| && pp == CellAt(list, k) && Load(pp) == At(list, k)
      ensures handed + {w} <= all0 && repr == all0 - (handed + {w})
      ensures |handed + {w}| == n + 1 && AllHanded(handed + {w}, addr)
      ensures all ==> Waking(k, n + 1, handed + {w}, q, all0, addr, all)
      ensures !all ==> keys == Kept(q, addr, all) && n + 1 == |Marked(q, addr, all)|
    {
      ScanHand(keys, k, n, q, addr, all);
      HandOff(pp, w, k);
    }

    /** Mark and unlink the first record of `addr`, or every one of them. */
    method Wake(addr: nat, all: bool) returns (n: nat, ghost handed: set<Waiter>)
      requires Valid()
      modifies this, repr
      ensures Valid()
      ensures keys == Kept(old(keys), addr, all)
      ensures n == |Marked(old(keys), addr, all)| == |handed|
      ensures repr == old(repr) - handed && handed <= old(repr)
      ensures AllHanded(handed, addr)
    {
      n, handed := 0, {};
      var pp := Head;
      ghost var k := 0;
      ScanStart(keys, addr, all);
      while Load(pp) != null
        invariant Waking(k, n, handed, old(keys), old(repr), addr, all)
        invariant pp == CellAt(list, k) && Load(pp) == At(list, k)
        decreases |list| - k
      {
        var w: Waiter := Load(pp);
        if w.key.addr != addr {
          PassedOver(k, n, handed, old(keys), old(repr), addr, all);
          pp, k := NextOf(w), k + 1;
          continue;
        }
        HandMatch(pp, w, addr, all, k, n, handed, old(keys), old(repr));
        n, handed := n + 1, handed + {w};
        if !all {
          return;
        }
      }
      ScanEnd(keys, n, old(keys), addr, all);
    }
  }

  /** Every record in `handed` was on `addr` and is now marked and out of any list. */
  ghost predicate AllHanded(handed: set<Waiter>, addr: nat)
    reads handed
  {
    forall w | w in handed :: w.key.addr == addr && w.woken && !w.linked && w.next == null
  }
}
