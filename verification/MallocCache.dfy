/** Who owns which pages, and the cache of parked mappings. */
module MallocCache {
  import opened MallocBlocks

  const LARGE_CACHE_SLOTS := 8
  const LARGE_CACHE_MAX_BYTES := 256 * 1024

  /** Two mappings share no byte, and each is a run of whole pages. */
  ghost predicate Mappings(maps: map<int, int>) {
    && (forall b :: b in maps ==> b > 0 && b % PGSIZE == 0 && maps[b] > 0 && maps[b] % PGSIZE == 0)
    && (forall b, c :: b in maps && c in maps && b != c ==> Clear(Block(b, maps[b]), Block(c, maps[c])))
  }

  /** The system's page owner: maps holds what it has handed out and not taken back. Whether
      it grants a request, and where, is its own choice. */
  class Kernel {
    var maps: map<int, int>
    /** How often it was asked for a new mapping, and how often it refused. */
    ghost var asked: nat
    ghost var refusals: nat

    ghost predicate Valid()
      reads this
    {
      Mappings(maps)
    }

    constructor ()
      ensures Valid() && maps == map[]
    {
      maps := map[];
      asked, refusals := 0, 0;
    }

    method Mmap(len: int) returns (base: int)
      requires Valid() && len > 0 && len % PGSIZE == 0
      modifies this
      ensures Valid() && asked == old(asked) + 1 && refusals == old(refusals) + if base == 0 then 1 else 0
      ensures base == 0 ==> maps == old(maps)
      ensures base != 0 ==> base !in old(maps) && maps == old(maps)[base := len]
    {
      asked := asked + 1;
      base := *;
      if base <= 0 || base % PGSIZE != 0 || exists b | b in maps :: !Clear(Block(b, maps[b]), Block(base, len)) {
        refusals := refusals + 1;
        return 0;
      }
      assert base in maps ==> !Clear(Block(base, maps[base]), Block(base, len));
      maps := maps[base := len];
    }

    /** A mapping is only given back whole. */
    method Munmap(base: int, len: int)
      requires Valid() && base in maps && len == maps[base]
      modifies this`maps
      ensures Valid() && maps == old(maps) - {base}
    {
      maps := maps - {base};
    }

    /** With no flags: resizes in place or refuses. */
    method Mremap(base: int, len: int, newLen: int) returns (ok: bool)
      requires Valid() && base in maps && len == maps[base] && newLen > 0 && newLen % PGSIZE == 0
      modifies this`maps
      ensures Valid() && maps == if ok then old(maps)[base := newLen] else old(maps)
    {
      ok := *;
      if ok && exists b | b in maps && b != base :: !Clear(Block(b, maps[b]), Block(base, newLen)) {
        ok := false;
      }
      if ok { maps := maps[base := newLen]; }
    }
  }

  /** base 0 is a free slot. */
  datatype Slot = Slot(base: int, mapped: int)

  const FREE_SLOT := Slot(0, 0)

  function Total(slots: seq<Slot>): int {
    if slots == [] then 0 else Total(slots[..|slots| - 1]) + SlotBytes(slots[|slots| - 1])
  }

  function SlotBytes(s: Slot): int { if s.base == 0 then 0 else s.mapped }

  lemma {:induction false} TotalUpdate(slots: seq<Slot>, i: nat, s: Slot)
    requires i < |slots|
    ensures Total(slots[i := s]) == Total(slots) - SlotBytes(slots[i]) + SlotBytes(s)
  {
    var n := |slots| - 1;
    if i < n {
      TotalUpdate(slots[..n], i, s);
      assert slots[i := s][..n] == slots[..n][i := s];
    } else {
      assert slots[i := s][..n] == slots[..n];
    }
  }

  lemma {:induction false} TotalNone(slots: seq<Slot>)
    requires forall i :: 0 <= i < |slots| ==> slots[i].base == 0
    ensures Total(slots) == 0
  {
    if slots != [] { TotalNone(slots[..|slots| - 1]); }
  }

  ghost predicate SlotsOk(slots: seq<Slot>, maps: map<int, int>) {
    && |slots| == LARGE_CACHE_SLOTS
    && (forall i :: 0 <= i < |slots| && slots[i].base != 0 ==>
        slots[i].base in maps && maps[slots[i].base] == slots[i].mapped)
    && (forall i, j :: 0 <= i < j < |slots| && slots[i].base != 0 ==> slots[i].base != slots[j].base)
  }

  ghost function Bases(slots: seq<Slot>): set<int> { set i | 0 <= i < |slots| && slots[i].base != 0 :: slots[i].base }

  /** A parked mapping may serve a request of up to its length and down to half of it. */
  predicate Serves(s: Slot, total: int) { s.base != 0 && total <= s.mapped <= total * 2 }

  class Cache {
    const kernel: Kernel
    var slots: seq<Slot>
    var bytes: int

    ghost function Parked(): set<int>
      reads this
    {
      Bases(slots)
    }

    ghost predicate Valid()
      reads this, kernel
    {
      && kernel.Valid() && SlotsOk(slots, kernel.maps)
      && bytes == Total(slots) <= LARGE_CACHE_MAX_BYTES
    }

    constructor (kernel: Kernel)
      requires kernel.Valid()
      ensures Valid() && this.kernel == kernel && Parked() == {}
    {
      this.kernel := kernel;
      slots := seq(LARGE_CACHE_SLOTS, _ => FREE_SLOT);
      bytes := 0;
      new;
      TotalNone(slots);
    }

    method ReleaseParked()
      requires Valid()
      modifies this, kernel`maps
      ensures Valid() && Parked() == {} && kernel.maps == old(kernel.maps) - old(Parked())
    {
      var i := 0;
      while i < LARGE_CACHE_SLOTS
        invariant 0 <= i <= LARGE_CACHE_SLOTS && |slots| == LARGE_CACHE_SLOTS && kernel.Valid()
        invariant forall k :: 0 <= k < i ==> slots[k].base == 0
        invariant slots[i..] == old(slots)[i..]
        invariant kernel.maps == old(kernel.maps) - Bases(old(slots)[..i])
      {
        ghost var was := old(slots);
        assert slots[i] == slots[i..][0] == was[i];
        forall k | 0 <= k < i ensures was[k].base == 0 || was[k].base != was[i].base {}
        if slots[i].base != 0 {
          kernel.Munmap(slots[i].base, slots[i].mapped);
          slots := slots[i := slots[i].(base := 0)];
        }
        assert slots[i + 1..] == was[i + 1..] by {
          assert was[i + 1..] == was[i..][1..] && slots[i + 1..] == slots[i..][1..];
        }
        MoreBases(was, i);
        assert kernel.maps == old(kernel.maps) - Bases(was[..i + 1]);
        i := i + 1;
      }
      assert old(slots)[..i] == old(slots);
      bytes := 0;
      TotalNone(slots);
    }

    /** The tightest parked mapping that serves the request, the first of those; -1 if none. */
    method FindParked(total: int) returns (best: int)
      requires |slots| == LARGE_CACHE_SLOTS
      ensures -1 <= best < |slots|
      ensures best >= 0 ==> Serves(slots[best], total)
      ensures best >= 0 ==> forall i :: 0 <= i < |slots| && Serves(slots[i], total) ==>
        slots[best].mapped < slots[i].mapped || (slots[best].mapped == slots[i].mapped && best <= i)
      ensures best < 0 ==> forall i :: 0 <= i < |slots| ==> !Serves(slots[i], total)
    {
      best := -1;
      var i := 0;
      while i < LARGE_CACHE_SLOTS
        invariant 0 <= i <= LARGE_CACHE_SLOTS && -1 <= best < i
        invariant best >= 0 ==> Serves(slots[best], total)
        invariant best >= 0 ==> forall k :: 0 <= k < i && Serves(slots[k], total) ==>
          slots[best].mapped < slots[k].mapped || (slots[best].mapped == slots[k].mapped && best <= k)
        invariant best < 0 ==> forall k :: 0 <= k < i ==> !Serves(slots[k], total)
      {
        if Serves(slots[i], total) && (best < 0 || slots[i].mapped < slots[best].mapped) {
          best := i;
        }
        i := i + 1;
      }
    }

    /** Maps at least total bytes; got is what the caller really gets. base 0 is failure.
        A parked mapping that serves is used, the tightest one; otherwise all of them go back
        and the mapping is new. */
    method Map(total: int) returns (base: int, got: int)
      requires Valid() && total > 0 && total % PGSIZE == 0
      modifies this, kernel
      ensures Valid() && base !in Parked() && Parked() <= old(Parked())
      ensures kernel.refusals == old(kernel.refusals) + if base == 0 then 1 else 0
      ensures base != 0 ==> base in kernel.maps && kernel.maps[base] == got && total <= got <= 2 * total
      ensures forall s :: s in old(slots) && Serves(s, total) ==>
        base in old(Parked()) && got <= s.mapped && kernel.maps == old(kernel.maps) && kernel.asked == old(kernel.asked)
      ensures (forall s :: s in old(slots) ==> !Serves(s, total)) ==> Parked() == {} && (base != 0 ==> got == total)
      ensures base !in old(kernel.maps.Keys) - old(Parked())
      ensures kernel.maps.Keys == (old(kernel.maps.Keys) - old(Parked())) + Parked() + (if base == 0 then {}
              else {base})
      ensures forall b :: b in kernel.maps && b in old(kernel.maps) && b != base ==>
        kernel.maps[b] == old(kernel.maps)[b]
    {
      var best := FindParked(total);
      if best >= 0 {
        ghost var was := slots;
        base, got := slots[best].base, slots[best].mapped;
        TotalUpdate(slots, best, slots[best].(base := 0));
        slots := slots[best := slots[best].(base := 0)];
        bytes := bytes - got;
        FreeOne(was, best);
        return;
      }
      ReleaseParked();
      base := kernel.Mmap(total);
      got := total;
    }

    method Unmap(base: int, total: int)
      requires Valid() && base in kernel.maps && total == kernel.maps[base] && base !in Parked()
      modifies this, kernel`maps
      ensures Valid()
      ensures (kernel.maps == old(kernel.maps) && Parked() == old(Parked()) + {base})
        || (kernel.maps == old(kernel.maps) - {base} && Parked() == old(Parked()))
    {
      assert forall k :: 0 <= k < |slots| && slots[k].base != 0 ==> slots[k].base in Parked();
      if bytes + total <= LARGE_CACHE_MAX_BYTES {
        var i := 0;
        while i < LARGE_CACHE_SLOTS
          invariant 0 <= i <= LARGE_CACHE_SLOTS && slots == old(slots) && bytes == old(bytes)
          invariant kernel.maps == old(kernel.maps)
        {
          if slots[i].base == 0 {
            ghost var was := slots;
            TotalUpdate(slots, i, Slot(base, total));
            slots := slots[i := Slot(base, total)];
            bytes := bytes + total;
            UseOne(was, i, base, total);
            return;
          }
          i := i + 1;
        }
      }
      kernel.Munmap(base, total);
    }
  }

  lemma MoreBases(slots: seq<Slot>, i: nat)
    requires i < |slots|
    ensures Bases(slots[..i + 1]) == Bases(slots[..i]) + (if slots[i].base == 0 then {} else {slots[i].base})
  {
    var s, s' := slots[..i], slots[..i + 1];
    forall b | b in Bases(s') ensures b in Bases(s) + (if slots[i].base == 0 then {} else {slots[i].base}) {
      var k :| 0 <= k < |s'| && s'[k].base != 0 && s'[k].base == b;
      if k < i { assert s[k].base == b; }
    }
    forall b | b in Bases(s) ensures b in Bases(s') {
      var k :| 0 <= k < |s| && s[k].base != 0 && s[k].base == b;
      assert s'[k].base == b;
    }
    if slots[i].base != 0 { assert s'[i].base in Bases(s'); }
  }

  lemma FreeOne(slots: seq<Slot>, i: nat)
    requires i < |slots| && slots[i].base != 0
    requires forall j, k :: 0 <= j < k < |slots| && slots[j].base != 0 ==> slots[j].base != slots[k].base
    ensures Bases(slots[i := slots[i].(base := 0)]) == Bases(slots) - {slots[i].base}
    ensures slots[i].base in Bases(slots)
  {
    var s := slots[i := slots[i].(base := 0)];
    forall b | b in Bases(slots) - {slots[i].base} ensures b in Bases(s) {
      var k :| 0 <= k < |slots| && slots[k].base != 0 && slots[k].base == b;
      assert s[k].base == b;
    }
    forall b | b in Bases(s) ensures b in Bases(slots) - {slots[i].base} {
      var k :| 0 <= k < |s| && s[k].base != 0 && s[k].base == b;
      assert slots[k].base == b;
    }
  }

  lemma UseOne(slots: seq<Slot>, i: nat, base: int, total: int)
    requires i < |slots| && slots[i].base == 0 && base != 0
    ensures Bases(slots[i := Slot(base, total)]) == Bases(slots) + {base}
  {
    var s := slots[i := Slot(base, total)];
    assert s[i].base == base;
    forall b | b in Bases(slots) ensures b in Bases(s) {
      var k :| 0 <= k < |slots| && slots[k].base != 0 && slots[k].base == b;
      assert s[k].base == b;
    }
  }
}
