/** Construction and teardown of the io_uring handle as a ledger of host resources: whichever
    acquisition fails, everything acquired so far is given back, each thing once, each mapping
    with the length it was mapped with. */
module UringLedger {

  datatype Ptr = Null | MapFailed | At(addr: nat)

  /** What the process owns. Giving back something it does not own, or a mapping under another
      length, is ruled out by precondition. Any acquisition may fail. */
  class Host {
    ghost var fds: set<int>
    ghost var maps: map<nat, nat>   // start of each mapping -> its length
    ghost var blocks: set<nat>
    ghost var refusals: nat         // the requests it has refused
    var next: nat

    ghost predicate Valid()
      reads this
    {
      && (forall fd | fd in fds :: 0 <= fd < next)
      && (forall a | a in maps :: a < next)
      && (forall a | a in blocks :: a < next)
    }

    /** A descriptor from setup or eventfd, or -1. */
    method Open() returns (fd: int)
      requires Valid()
      modifies this`fds, this`next, this`refusals
      ensures refusals == old(refusals) + if fd < 0 then 1 else 0
      ensures Valid() && fd !in old(fds)
      ensures fds == if fd >= 0 then old(fds) + {fd} else old(fds)
    {
      if * {
        refusals := refusals + 1;
        return -1;
      }
      fd := next;
      fds, next := fds + {fd}, next + 1;
    }

    method CloseFd(fd: int)
      requires Valid() && fd in fds
      modifies this`fds
      ensures Valid() && fds == old(fds) - {fd}
    {
      fds := fds - {fd};
    }

    /** mmap; refuses a zero length. */
    method Map(len: nat) returns (p: Ptr)
      requires Valid()
      modifies this`maps, this`next, this`refusals
      ensures refusals == old(refusals) + if p.MapFailed? then 1 else 0
      ensures Valid() && (p.MapFailed? || p.At?)
      ensures p.MapFailed? ==> maps == old(maps)
      ensures p.At? ==> len > 0 && p.addr !in old(maps) && maps == old(maps)[p.addr := len]
    {
      if len == 0 {
        refusals := refusals + 1;
        return MapFailed;
      }
      if * {
        refusals := refusals + 1;
        return MapFailed;
      }
      p := At(next);
      maps, next := maps[next := len], next + 1;
    }

    method Unmap(addr: nat, len: nat)
      requires Valid() && addr in maps && maps[addr] == len > 0
      modifies this`maps
      ensures Valid() && maps == old(maps) - {addr}
    {
      maps := maps - {addr};
    }

    /** malloc and calloc. */
    method Alloc() returns (p: Ptr)
      requires Valid()
      modifies this`blocks, this`next, this`refusals
      ensures refusals == old(refusals) + if p.Null? then 1 else 0
      ensures Valid() && (p.Null? || p.At?) && Owned(p) !! old(blocks)
      ensures blocks == old(blocks) + Owned(p)
    {
      if * {
        refusals := refusals + 1;
        return Null;
      }
      p := At(next);
      blocks, next := blocks + {next}, next + 1;
    }

    /** The submission of the wake poll. */
    method TakePoll() returns (ok: bool)
      modifies this`refusals
      ensures refusals == old(refusals) + if ok then 0 else 1
    {
      ok := *;
      if !ok {
        refusals := refusals + 1;
      }
    }

    method Free(p: Ptr)
      requires Valid() && !p.MapFailed? && Owned(p) <= blocks
      modifies this`blocks
      ensures Valid() && blocks == old(blocks) - Owned(p)
    {
      blocks := blocks - Owned(p);
    }
  }

  ghost function Owned(p: Ptr): set<nat> {
    if p.At? then {p.addr} else {}
  }

  /** A mapping the handle has recorded: where and how long. */
  ghost function Span(p: Ptr, len: nat): map<nat, nat> {
    if p.At? && len != 0 then map[p.addr := len] else map[]
  }

  lemma Recordings(a: map<nat, nat>, b: map<nat, nat>, c: map<nat, nat>)
    requires a.Keys !! b.Keys !! c.Keys
    ensures forall k | k in a :: k in a + b + c && (a + b + c)[k] == a[k]
    ensures forall k | k in b :: k in a + b + c && (a + b + c)[k] == b[k]
    ensures forall k | k in c :: k in a + b + c && (a + b + c)[k] == c[k]
    ensures (a + b + c).Keys == a.Keys + b.Keys + c.Keys
  {
  }

  lemma WithoutEach(m: map<nat, nat>, a: set<nat>, b: set<nat>, c: set<nat>)
    ensures m - a - b - c == m - (a + b + c)
  {
  }

  /** munmap one region, unless it was never mapped. */
  method UnmapOne(host: Host, p: Ptr, len: nat)
    requires host.Valid() && forall a | a in Span(p, len) :: a in host.maps && host.maps[a] == len
    modifies host`maps
    ensures host.Valid() && host.maps == old(host.maps) - Span(p, len).Keys
  {
    if p.At? && len != 0 {
      assert p.addr in Span(p, len);
      host.Unmap(p.addr, len);
    }
  }

  /** Ring geometry from the kernel's setup parameters, already rounded to pages. */
  datatype Geometry = Geometry(sqLen: nat, cqLen: nat, sqesLen: nat)

  class Rings {
    var sqRing: Ptr
    var sqRingLen: nat
    var cqRing: Ptr
    var cqRingLen: nat
    var sqes: Ptr
    var sqesLen: nat

    constructor ()
      ensures Recorded() == map[] && sqRingLen == cqRingLen == sqesLen == 0
    {
      sqRing, cqRing, sqes := MapFailed, MapFailed, MapFailed;
      sqRingLen, cqRingLen, sqesLen := 0, 0, 0;
    }

    /** Every recorded mapping, with its recorded length. */
    ghost function Recorded(): map<nat, nat>
      reads this
    {
      Span(sqRing, sqRingLen) + Span(cqRing, cqRingLen) + Span(sqes, sqesLen)
    }

    /** The recorded mappings are three different regions, live under their recorded lengths. */
    ghost predicate Backed(host: Host)
      reads this, host
    {
      && host.Valid()
      && Span(sqRing, sqRingLen).Keys !! Span(cqRing, cqRingLen).Keys !! Span(sqes, sqesLen).Keys
      && (forall a | a in Recorded() :: a in host.maps && host.maps[a] == Recorded()[a])
    }

    /** Release whatever is recorded, from any point of construction. Nothing is recorded
        afterwards, so a second call releases nothing. */
    method UnmapAll(host: Host)
      requires Backed(host)
      modifies this, host`maps
      ensures host.Valid() && host.maps == old(host.maps) - old(Recorded().Keys)
      ensures Recorded() == map[] && Backed(host)
    {
      ghost var m, a, b, c := host.maps, Span(sqRing, sqRingLen), Span(cqRing, cqRingLen), Span(sqes, sqesLen);
      Recordings(a, b, c);
      UnmapOne(host, sqRing, sqRingLen);
      sqRing, sqRingLen := MapFailed, 0;
      UnmapOne(host, cqRing, cqRingLen);
      cqRing, cqRingLen := MapFailed, 0;
      UnmapOne(host, sqes, sqesLen);
      sqes, sqesLen := MapFailed, 0;
      WithoutEach(m, a.Keys, b.Keys, c.Keys);
    }

    /** Map the three regions; a failure part way gives back the earlier ones. */
    method MapAll(host: Host, g: Geometry) returns (ok: bool)
      requires host.Valid() && Recorded() == map[] && sqRingLen == cqRingLen == sqesLen == 0
      modifies this, host`maps, host`next, host`refusals
      ensures host.Valid() && Backed(host) && (ok <==> host.refusals == old(host.refusals)) && host.refusals >= old(host.refusals)
      ensures !ok ==> host.maps == old(host.maps) && Recorded() == map[]
      ensures ok ==> host.maps == old(host.maps) + Recorded() && Recorded().Keys !! old(host.maps).Keys
      ensures ok ==> sqRing.At? && cqRing.At? && sqes.At? && sqRingLen == g.sqLen > 0 && cqRingLen == g.cqLen > 0 && sqesLen == g.sqesLen > 0
    {
      ghost var m := host.maps;
      sqRing := host.Map(g.sqLen);
      if sqRing.MapFailed? {
        return false;
      }
      sqRingLen := g.sqLen;
      assert Recorded() == map[sqRing.addr := g.sqLen];
      cqRing := host.Map(g.cqLen);
      if cqRing.MapFailed? {
        assert Recorded() == map[sqRing.addr := g.sqLen];
        UnmapAll(host);
        assert host.maps == m;
        return false;
      }
      cqRingLen := g.cqLen;
      assert Recorded() == map[sqRing.addr := g.sqLen, cqRing.addr := g.cqLen] && host.maps == m + Recorded();
      ok := MapSqes(host, g, m);
    }

    /** The last of the three mappings. */
    method MapSqes(host: Host, g: Geometry, ghost m: map<nat, nat>) returns (ok: bool)
      requires Backed(host) && sqesLen == 0 && sqRing.At? && cqRing.At? && sqRingLen == g.sqLen > 0 && cqRingLen == g.cqLen > 0
      requires Recorded() == map[sqRing.addr := g.sqLen, cqRing.addr := g.cqLen]
      requires host.maps == m + Recorded() && Recorded().Keys !! m.Keys
      modifies this, host`maps, host`next, host`refusals
      ensures Backed(host) && host.refusals == old(host.refusals) + if ok then 0 else 1
      ensures !ok ==> host.maps == m && Recorded() == map[]
      ensures ok ==> host.maps == m + Recorded() && Recorded().Keys !! m.Keys
      ensures ok ==> sqRing.At? && cqRing.At? && sqes.At? && sqRingLen == g.sqLen && cqRingLen == g.cqLen && sqesLen == g.sqesLen > 0
    {
      ghost var r := Recorded();
      sqes := host.Map(g.sqesLen);
      if sqes.MapFailed? {
        assert Recorded() == r;
        UnmapAll(host);
        assert host.maps == m;
        return false;
      }
      sqesLen := g.sqesLen;
      assert Recorded() == r + map[sqes.addr := g.sqesLen];
      return true;
    }
  }

  /** The four parallel arrays of the registration table. */
  class Arrays {
    var rFds: Ptr
    var rSeqs: Ptr
    var rTok: Ptr
    var rInt: Ptr

    constructor ()
      ensures All() == {} && Backed(All())
    {
      rFds, rSeqs, rTok, rInt := Null, Null, Null, Null;
    }

    ghost function All(): set<nat>
      reads this
    {
      Owned(rFds) + Owned(rSeqs) + Owned(rTok) + Owned(rInt)
    }

    ghost predicate Backed(blocks: set<nat>)
      reads this
    {
      && !rFds.MapFailed? && !rSeqs.MapFailed? && !rTok.MapFailed? && !rInt.MapFailed?
      && Owned(rFds) !! Owned(rSeqs) !! Owned(rTok) !! Owned(rInt)
      && All() <= blocks
    }

    /** All four are attempted before any is looked at. */
    method AllocAll(host: Host) returns (ok: bool)
      requires host.Valid()
      modifies this, host`blocks, host`next, host`refusals
      ensures host.refusals >= old(host.refusals) && (ok <==> host.refusals == old(host.refusals))
      ensures host.Valid() && Backed(host.blocks)
      ensures host.blocks == old(host.blocks) + All() && All() !! old(host.blocks)
      ensures ok == (rFds.At? && rSeqs.At? && rTok.At? && rInt.At?)
    {
      rFds := host.Alloc();
      rSeqs := host.Alloc();
      rTok := host.Alloc();
      rInt := host.Alloc();
      ok := rFds.At? && rSeqs.At? && rTok.At? && rInt.At?;
    }

    /** Any of them may be missing. */
    method FreeAll(host: Host)
      requires host.Valid() && Backed(host.blocks)
      modifies host`blocks
      ensures host.Valid() && host.blocks == old(host.blocks) - All()
    {
      host.Free(rFds);
      host.Free(rSeqs);
      host.Free(rTok);
      host.Free(rInt);
    }
  }

  class Handle {
    const self: Ptr
    const rings: Rings
    const arrays: Arrays
    var ringFd: int
    var wakeFd: int

    constructor (self: Ptr, ringFd: int)
      ensures this.self == self && this.ringFd == ringFd && wakeFd == -1 && fresh(rings) && fresh(arrays)
      ensures rings.Recorded() == map[] && rings.sqRingLen == rings.cqRingLen == rings.sqesLen == 0
    {
      this.self, this.ringFd, wakeFd := self, ringFd, -1;
      rings := new Rings();
      arrays := new Arrays();
    }

    /** A finished handle: two descriptors, three mappings, four arrays and its own storage. */
    ghost predicate Complete(host: Host)
      reads this, rings, arrays, host
    {
      && rings.Backed(host) && arrays.Backed(host.blocks)
      && rings.sqRing.At? && rings.cqRing.At? && rings.sqes.At?
      && rings.sqRingLen > 0 && rings.cqRingLen > 0 && rings.sqesLen > 0
      && arrays.rFds.At? && arrays.rSeqs.At? && arrays.rTok.At? && arrays.rInt.At?
      && self.At? && self.addr in host.blocks && self.addr !in arrays.All()
      && wakeFd >= 0 && ringFd != wakeFd && {ringFd, wakeFd} <= host.fds
    }
  }

  /** The construction ladder. `available` is the capability predicate; every acquisition may
      fail, and so may the submission of the wake poll at the end. There is no handle exactly
      when the capability is missing or the host has refused something. */
  method Create(host: Host, available: bool, g: Geometry) returns (h: Handle?)
    requires host.Valid()
    modifies host
    ensures host.Valid() && (h == null <==> !available || host.refusals > old(host.refusals))
    ensures h == null ==> host.fds == old(host.fds) && host.maps == old(host.maps) && host.blocks == old(host.blocks)
    ensures h != null ==> fresh(h) && fresh(h.rings) && fresh(h.arrays) && h.Complete(host)
    ensures h != null ==> host.fds == old(host.fds) + {h.ringFd, h.wakeFd} && {h.ringFd, h.wakeFd} !! old(host.fds)
    ensures h != null ==> host.maps == old(host.maps) + h.rings.Recorded() && h.rings.Recorded().Keys !! old(host.maps).Keys
    ensures h != null ==> h.rings.sqRingLen == g.sqLen && h.rings.cqRingLen == g.cqLen && h.rings.sqesLen == g.sqesLen
    ensures h != null ==> host.blocks == old(host.blocks) + h.arrays.All() + {h.self.addr}
    ensures h != null ==> (h.arrays.All() + {h.self.addr}) !! old(host.blocks)
  {
    if !available {
      return null;
    }
    var fd := host.Open();
    if fd < 0 {
      return null;
    }
    var self := host.Alloc();
    if self.Null? {
      host.CloseFd(fd);
      return null;
    }
    var u := new Handle(self, fd);
    var ok := u.rings.MapAll(host, g);
    if !ok {
      host.CloseFd(fd);
      host.Free(self);
      return null;
    }
    ok := u.arrays.AllocAll(host);
    if !ok {
      Abandon(host, u, old(host.maps), old(host.blocks));
      return null;
    }
    ok := StartWake(host, u, old(host.maps), old(host.blocks));
    if !ok {
      return null;
    }
    return u;
  }

  /** The last rungs: the wake eventfd and its poll. */
  method StartWake(host: Host, u: Handle, ghost maps: map<nat, nat>, ghost blocks: set<nat>) returns (ok: bool)
    requires u.rings.Backed(host) && u.arrays.Backed(host.blocks) && u.ringFd in host.fds
    requires host.maps == maps + u.rings.Recorded() && u.rings.Recorded().Keys !! maps.Keys
    requires u.self.At? && u.self.addr !in u.arrays.All() && (u.arrays.All() + {u.self.addr}) !! blocks
    requires host.blocks == blocks + u.arrays.All() + {u.self.addr}
    modifies u`wakeFd, u.rings, host`maps, host`fds, host`blocks, host`next, host`refusals
    ensures host.Valid() && host.refusals == old(host.refusals) + if ok then 0 else 1
    ensures !ok ==> host.maps == maps && host.blocks == blocks && host.fds == old(host.fds) - {u.ringFd}
    ensures ok ==> u.wakeFd >= 0 && u.wakeFd !in old(host.fds) && host.fds == old(host.fds) + {u.wakeFd}
    ensures ok ==> host.maps == old(host.maps) && host.blocks == old(host.blocks) && unchanged(u.rings)
  {
    u.wakeFd := host.Open();
    if u.wakeFd < 0 {
      Abandon(host, u, maps, blocks);
      return false;
    }
    ok := host.TakePoll();
    if !ok {
      host.CloseFd(u.wakeFd);
      Abandon(host, u, maps, blocks);
    }
  }

  /** The lower rungs of the error ladder: mappings, arrays, ring descriptor, storage. */
  method Abandon(host: Host, u: Handle, ghost maps: map<nat, nat>, ghost blocks: set<nat>)
    requires u.rings.Backed(host) && u.arrays.Backed(host.blocks) && u.ringFd in host.fds
    requires host.maps == maps + u.rings.Recorded() && u.rings.Recorded().Keys !! maps.Keys
    requires u.self.At? && u.self.addr !in u.arrays.All() && (u.arrays.All() + {u.self.addr}) !! blocks
    requires host.blocks == blocks + u.arrays.All() + {u.self.addr}
    modifies u.rings, host`maps, host`fds, host`blocks
    ensures host.Valid() && host.maps == maps && host.blocks == blocks && host.fds == old(host.fds) - {u.ringFd}
  {
    u.rings.UnmapAll(host);
    u.arrays.FreeAll(host);
    host.CloseFd(u.ringFd);
    host.Free(u.self);
  }

  /** Close gives back everything a finished handle stands for. */
  method Close(host: Host, u: Handle)
    requires u.Complete(host)
    modifies u.rings, host`maps, host`fds, host`blocks
    ensures host.Valid()
    ensures host.fds == old(host.fds) - {u.ringFd, u.wakeFd}
    ensures host.maps == old(host.maps) - old(u.rings.Recorded().Keys)
    ensures host.blocks == old(host.blocks) - u.arrays.All() - {u.self.addr}
  {
    if u.wakeFd >= 0 {
      host.CloseFd(u.wakeFd);
    }
    u.rings.UnmapAll(host);
    host.CloseFd(u.ringFd);
    u.arrays.FreeAll(host);
    host.Free(u.self);
  }

  /** Create followed by close leaves the process owning exactly what it owned before. */
  method CreateThenClose(host: Host, available: bool, g: Geometry)
    requires host.Valid()
    modifies host
    ensures host.Valid()
    ensures host.fds == old(host.fds) && host.maps == old(host.maps) && host.blocks == old(host.blocks)
  {
    var h := Create(host, available, g);
    if h != null {
      Close(host, h);
    }
  }

  /** Unmapping twice is unmapping once, from any point of construction. */
  method UnmapTwice(host: Host, rings: Rings)
    requires rings.Backed(host)
    modifies rings, host`maps
    ensures host.Valid() && host.maps == old(host.maps) - old(rings.Recorded().Keys)
  {
    rings.UnmapAll(host);
    rings.UnmapAll(host);
  }
}
