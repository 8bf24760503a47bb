/** The descriptor-to-token table of the epoll backend: open addressing with linear probing
    and tombstones, 256 cells. */
module EpollTable {

  const CAP: nat := 256
  const EMPTY := -1
  const TOMB := -2

  function Hash(fd: int): (h: nat)
    requires fd >= 0
    ensures h < CAP
  {
    (fd * 2654435761) % CAP
  }

  /** The cell `i` steps after `h`, cyclically. */
  function Walk(h: nat, i: nat): (j: nat)
    requires h < CAP && i < CAP
    ensures j < CAP
  {
    if h + i < CAP then h + i else h + i - CAP
  }

  /** The number of steps from `h` to `j`. */
  function Dist(h: nat, j: nat): (i: nat)
    requires h < CAP && j < CAP
    ensures i < CAP && Walk(h, i) == j
  {
    if h <= j then j - h else j + CAP - h
  }

  /** The probe loop: `n` cells passed, `tomb` the first tombstone among them (CAP if none). */
  function ProbeFrom(fds: seq<int>, fd: int, h: nat, n: nat, tomb: nat): (slot: nat)
    requires |fds| == CAP && h < CAP && n < CAP && tomb <= CAP
    ensures slot <= CAP
    decreases CAP - n
  {
    if fds[h] == EMPTY || fds[h] == fd then
      if fds[h] == EMPTY && tomb < CAP then tomb else h
    else if n + 1 >= CAP then CAP
    else
      ProbeFrom(fds, fd, Walk(h, 1), n + 1, if fds[h] == TOMB && tomb == CAP then h else tomb)
  }

  /** The cell of `fd`, or the best cell to put it in, or CAP. */
  function Probe(fds: seq<int>, fd: int): (slot: nat)
    requires |fds| == CAP && fd >= 0
    ensures slot <= CAP
  {
    ProbeFrom(fds, fd, Hash(fd), 0, CAP)
  }

  ghost predicate HasEmpty(fds: seq<int>) {
    exists j :: 0 <= j < |fds| && fds[j] == EMPTY
  }

  /** No empty cell on the way from `h` to `j`. */
  ghost predicate Unbroken(fds: seq<int>, h: nat, j: nat)
    requires |fds| == CAP && h < CAP && j < CAP
  {
    forall i | 0 <= i < Dist(h, j) :: fds[Walk(h, i)] != EMPTY
  }

  /** Every live descriptor occurs once and is reachable from its hash without meeting an empty
      cell. */
  ghost predicate Sound(fds: seq<int>) {
    && |fds| == CAP
    && (forall i, j | 0 <= i < j < CAP && fds[i] >= 0 :: fds[i] != fds[j])
    && (forall j | 0 <= j < CAP && fds[j] >= 0 :: Unbroken(fds, Hash(fds[j]), j))
  }

  /** What a probe for `fd` that passed `n` cells has seen. */
  ghost predicate Passed(fds: seq<int>, fd: int, h0: nat, n: nat, tomb: nat)
    requires |fds| == CAP && h0 < CAP && n <= CAP
  {
    && (forall i | 0 <= i < n :: fds[Walk(h0, i)] != EMPTY && fds[Walk(h0, i)] != fd)
    && tomb <= CAP
    && (tomb < CAP ==> Dist(h0, tomb) < n && fds[tomb] == TOMB)
  }

  /** What a probe finds, on any table. */
  ghost predicate Found(fds: seq<int>, fd: int, h0: nat, slot: nat)
    requires |fds| == CAP && h0 < CAP
  {
    if slot >= CAP then slot == CAP && !HasEmpty(fds) && fd !in fds
    else
      && Unbroken(fds, h0, slot)
      && (fds[slot] == fd
          || ((fds[slot] == EMPTY || fds[slot] == TOMB) && HasEmpty(fds) &&
              exists n | 0 <= n < CAP :: fds[Walk(h0, n)] == EMPTY && forall i | 0 <= i < n :: fds[Walk(h0, i)] != fd))
  }

  lemma {:induction false} ProbeFromFinds(fds: seq<int>, fd: int, h0: nat, n: nat, tomb: nat)
    requires |fds| == CAP && h0 < CAP && n < CAP && fd >= 0 && Passed(fds, fd, h0, n, tomb)
    ensures Found(fds, fd, h0, ProbeFrom(fds, fd, Walk(h0, n), n, tomb))
    decreases CAP - n
  {
    var h := Walk(h0, n);
    if fds[h] == EMPTY || fds[h] == fd {
      assert Dist(h0, h) == n;
    } else if n + 1 >= CAP {
      forall j | 0 <= j < CAP ensures fds[j] != EMPTY && fds[j] != fd {
        assert fds[Walk(h0, Dist(h0, j))] == fds[j];
      }
    } else {
      assert Walk(h, 1) == Walk(h0, n + 1);
      ProbeFromFinds(fds, fd, h0, n + 1, if fds[h] == TOMB && tomb == CAP then h else tomb);
    }
  }

  /** A descriptor not met before the first gap on its path is nowhere. */
  lemma GapMeansAbsent(fds: seq<int>, fd: int, n: nat)
    requires Sound(fds) && fd >= 0 && n < CAP && fds[Walk(Hash(fd), n)] == EMPTY
    requires forall i | 0 <= i < n :: fds[Walk(Hash(fd), i)] != fd
    ensures fd !in fds
  {
    hide Hash;
    forall j | 0 <= j < CAP ensures fds[j] != fd {
      var d := Dist(Hash(fd), j);
      assert d < n ==> fds[Walk(Hash(fd), d)] != fd;
      assert fds[j] == fd ==> Unbroken(fds, Hash(fd), j);
    }
  }

  /** On a sound table a probe answers membership: the cell of a present descriptor, a free
      cell on its unbroken path for an absent one, and CAP exactly when the descriptor is absent
      and no empty cell is left, tombstones or not. */
  lemma ProbeDecides(fds: seq<int>, fd: int)
    requires Sound(fds) && fd >= 0
    ensures var slot := Probe(fds, fd);
      && (slot == CAP <==> fd !in fds && !HasEmpty(fds))
      && (slot < CAP ==> Unbroken(fds, Hash(fd), slot))
      && (fd in fds ==> slot < CAP && fds[slot] == fd)
      && (fd !in fds && slot < CAP ==> fds[slot] == EMPTY || fds[slot] == TOMB)
  {
    hide Hash;
    var h0, slot := Hash(fd), Probe(fds, fd);
    ProbeFromFinds(fds, fd, h0, 0, CAP);
    if slot < CAP && fds[slot] != fd {
      var n :| 0 <= n < CAP && fds[Walk(h0, n)] == EMPTY && forall i | 0 <= i < n :: fds[Walk(h0, i)] != fd;
      GapMeansAbsent(fds, fd, n);
    }
  }

  // ---- the table as a map ----

  /** Cells and tokens represent the map `m`. */
  ghost predicate Represents(fds: seq<int>, toks: seq<nat>, m: map<int, nat>) {
    && Sound(fds) && |toks| == CAP
    && (forall fd :: fd in m <==> fd >= 0 && fd in fds)
    && (forall j | 0 <= j < CAP && fds[j] >= 0 :: m[fds[j]] == toks[j])
  }

  lemma InsertKeepsSound(fds: seq<int>, fd: int, slot: nat)
    requires Sound(fds) && fd >= 0 && slot < CAP && slot == Probe(fds, fd)
    ensures Sound(fds[slot := fd])
  {
    hide Hash, ProbeFrom;
    ProbeDecides(fds, fd);
    var fds' := fds[slot := fd];
    forall j | 0 <= j < CAP && fds'[j] >= 0 ensures Unbroken(fds', Hash(fds'[j]), j) {
      assert Unbroken(fds, Hash(fds'[j]), j);
    }
  }

  /** Writing a descriptor and its token at the probed cell updates the map at that key. */
  lemma InsertUpdatesMap(fds: seq<int>, toks: seq<nat>, m: map<int, nat>, fd: int, tok: nat)
    requires Represents(fds, toks, m) && fd >= 0 && Probe(fds, fd) < CAP
    ensures var slot := Probe(fds, fd); Represents(fds[slot := fd], toks[slot := tok], m[fd := tok])
  {
    hide Hash, ProbeFrom, Unbroken;
    var slot := Probe(fds, fd);
    InsertKeepsSound(fds, fd, slot);
    ProbeDecides(fds, fd);
    var fds' := fds[slot := fd];
    assert fds'[slot] == fd;
    forall x ensures x in m[fd := tok] <==> x >= 0 && x in fds' {
      if x >= 0 && x in fds && x != fd {
        var j :| 0 <= j < CAP && fds[j] == x;
        assert fds'[j] == x;
      }
    }
  }

  lemma DeleteKeepsSound(fds: seq<int>, slot: nat)
    requires Sound(fds) && slot < CAP && fds[slot] >= 0
    ensures Sound(fds[slot := TOMB])
  {
    hide Hash;
    var fds' := fds[slot := TOMB];
    forall j | 0 <= j < CAP && fds'[j] >= 0 ensures Unbroken(fds', Hash(fds'[j]), j) {
      assert Unbroken(fds, Hash(fds'[j]), j);
    }
  }

  /** A tombstone removes exactly one key and breaks no other descriptor's path. */
  lemma DeleteRemovesKey(fds: seq<int>, toks: seq<nat>, m: map<int, nat>, slot: nat)
    requires Represents(fds, toks, m) && slot < CAP && fds[slot] >= 0
    ensures Represents(fds[slot := TOMB], toks, m - {fds[slot]})
  {
    hide Hash, ProbeFrom, Unbroken;
    DeleteKeepsSound(fds, slot);
    var fds' := fds[slot := TOMB];
    forall x ensures x in m - {fds[slot]} <==> x >= 0 && x in fds' {
      if x >= 0 && x in fds && x != fds[slot] {
        var j :| 0 <= j < CAP && fds[j] == x;
        assert fds'[j] == x;
      }
      if x >= 0 && x in fds' {
        var j :| 0 <= j < CAP && fds'[j] == x;
        assert fds[j] == x && j != slot;
      }
    }
  }

  /** Looking a descriptor up agrees with the map. */
  lemma LookupAgrees(fds: seq<int>, toks: seq<nat>, m: map<int, nat>, fd: int)
    requires Represents(fds, toks, m) && fd >= 0
    ensures var slot := Probe(fds, fd);
      && (fd in m <==> slot < CAP && fds[slot] == fd)
      && (fd in m ==> toks[slot] == m[fd])
  {
    hide Hash, ProbeFrom, Unbroken;
    ProbeDecides(fds, fd);
  }

  // ---- the table in place ----

  class Table {
    const fds: array<int>
    const toks: array<nat>

    ghost predicate Valid(m: map<int, nat>)
      reads fds, toks
    {
      fds.Length == CAP && toks.Length == CAP && Represents(fds[..], toks[..], m)
    }

    constructor ()
      ensures Valid(map[]) && fresh(fds) && fresh(toks)
    {
      fds := new int[CAP](_ => EMPTY);
      toks := new nat[CAP](_ => 0);
    }

    method Slot(fd: int) returns (h: nat)
      requires fds.Length == CAP && fd >= 0
      ensures h == Probe(fds[..], fd)
    {
      h := Hash(fd);
      var firstTomb: nat, count: nat := CAP, 0;
      while fds[h] != EMPTY && fds[h] != fd
        invariant h < CAP && count < CAP && firstTomb <= CAP
        invariant ProbeFrom(fds[..], fd, h, count, firstTomb) == Probe(fds[..], fd)
        decreases CAP - count
      {
        if fds[h] == TOMB && firstTomb == CAP {
          firstTomb := h;
        }
        h := Walk(h, 1);
        count := count + 1;
        if count >= CAP {
          return CAP;
        }
      }
      if fds[h] == EMPTY && firstTomb < CAP {
        return firstTomb;
      }
    }

    /** Record a token once the kernel has accepted the entry. */
    method Put(slot: nat, fd: int, tok: nat, ghost m: map<int, nat>)
      requires Valid(m) && fd >= 0 && slot == Probe(fds[..], fd) < CAP
      modifies fds, toks
      ensures Valid(m[fd := tok])
      ensures fds[..] == old(fds[..])[slot := fd] && toks[..] == old(toks[..])[slot := tok]
    {
      InsertUpdatesMap(fds[..], toks[..], m, fd, tok);
      fds[slot] := fd;
      toks[slot] := tok;
    }

    /** Drop `fd` if present. The code looks at the probed cell without asking whether it is one;
        here the answer says so, and is no exactly when `fd` is absent and no cell is empty. */
    method Drop(fd: int, ghost m: map<int, nat>) returns (inRange: bool)
      requires Valid(m) && fd >= 0
      modifies fds
      ensures inRange <==> fd in m || HasEmpty(old(fds[..]))
      ensures Valid(m - {fd})
    {
      var slot := Slot(fd);
      ProbeDecides(fds[..], fd);
      LookupAgrees(fds[..], toks[..], m, fd);
      if slot >= CAP {
        assert m - {fd} == m;
        return false;
      }
      if fds[slot] == fd {
        DeleteRemovesKey(fds[..], toks[..], m, slot);
        fds[slot] := TOMB;
      } else {
        assert m - {fd} == m;
      }
      return true;
    }

    method Lookup(fd: int, ghost m: map<int, nat>) returns (found: bool, tok: nat)
      requires Valid(m) && fd >= 0
      ensures found == (fd in m) && (found ==> tok == m[fd])
    {
      var slot := Slot(fd);
      LookupAgrees(fds[..], toks[..], m, fd);
      if slot >= CAP || fds[slot] != fd {
        return false, 0;
      }
      return true, toks[slot];
    }
  }
}
