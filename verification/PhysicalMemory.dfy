/** Physical memory snapshots of the offline ACPI host: mapped regions, some readable only as one 32-bit word. */
module PhysicalMemory {
  import opened Collections
  import opened FlatMemory
  import IoModels

  const WORD: nat := 0x1_0000_0000_0000_0000
  const BUDGET: nat := 4096
  const CAPACITY: nat := 16
  const MAPPINGS: nat := 64 + 3

  /** A snapshot of `[address, address + |bytes|)`, held at the host pointer `host`. */
  datatype Snapshot = Snapshot(address: nat, host: nat, bytes: array<byte>, read32Only: bool, readOffset: nat) {
    /** A `read32_only` snapshot serves one aligned word and no write. */
    predicate Admits(at: nat, size: nat, write: bool) {
      read32Only ==> !write && size == 4 && at == readOffset
    }
  }

  /** A loaded table, mapped at its own host pointer. */
  datatype Table = Table(base: nat, size: nat)

  /** `malloc` gave every snapshot a host range apart from those of the loaded tables. */
  ghost predicate TablesApart(ts: seq<Table>, rs: seq<Snapshot>) {
    forall i, j :: 0 <= i < |ts| && 0 <= j < |rs| ==> RangesApart(ts[i], rs[j])
  }

  predicate RangesApart(t: Table, s: Snapshot) {
    t.base + t.size <= s.host || s.host + s.bytes.Length <= t.base
  }

  /** `malloc` gave every snapshot a host range of its own. */
  ghost predicate HostDisjoint(rs: seq<Snapshot>) {
    forall i, j :: 0 <= i < j < |rs| ==>
      && rs[i].bytes != rs[j].bytes
      && (rs[i].host + rs[i].bytes.Length <= rs[j].host || rs[j].host + rs[j].bytes.Length <= rs[i].host)
  }

  class Memory {
    var tables: seq<Table>
    var regions: seq<Snapshot>
    var accesses: nat
    var denied: nat
    var localWrites: nat
    /** The regions as they were first loaded. */
    ghost var initial: seq<Region>

    ghost function Arrays(): set<array<byte>>
      reads this`regions
    {
      set r <- regions :: r.bytes
    }

    /** The regions at their physical addresses. */
    ghost function Physical(): (rs: seq<Region>)
      reads this`regions, Arrays()
      ensures |rs| == |regions|
      ensures forall i :: 0 <= i < |regions| ==> rs[i] == Region(regions[i].address, regions[i].bytes[..])
    {
      var rs, arrays := regions, Arrays();
      seq(|rs|, i requires 0 <= i < |rs| && rs[i].bytes in arrays reads arrays =>
        Region(rs[i].address, rs[i].bytes[..]))
    }

    ghost predicate WellFormed()
      reads this
    {
      && |tables| <= MAPPINGS && |regions| <= CAPACITY && accesses <= BUDGET
      && HostDisjoint(regions) && TablesApart(tables, regions)
      && forall i :: 0 <= i < |regions| ==>
           0 < regions[i].bytes.Length && regions[i].address + regions[i].bytes.Length < WORD
                                            && regions[i].host + regions[i].bytes.Length < WORD
    }

    /** A `read32_only` snapshot still holds what was loaded. */
    ghost predicate Untouched()
      reads this`regions, this`initial, Arrays()
    {
      |initial| == |regions| && forall i :: 0 <= i < |regions| && regions[i].read32Only ==>
        regions[i].bytes[..] == initial[i].data
    }

    ghost predicate Valid()
      reads this, Arrays()
    {
      WellFormed() && Disjoint(Physical()) && Untouched()
    }

    constructor ()
      ensures Valid() && regions == [] && tables == []
    {
      tables, regions, accesses, denied, localWrites, initial := [], [], 0, 0, 0, [];
    }

    /** `add_mapping`: a loaded table becomes mappable; a full list is fatal. */
    method AddMapping(base: nat, size: nat) returns (ok: bool)
      requires Valid() && forall j :: 0 <= j < |regions| ==> RangesApart(Table(base, size), regions[j])
      modifies this`tables
      ensures ok <==> |old(tables)| < MAPPINGS
      ensures Valid() && Physical() == old(Physical())
      ensures tables == if ok then old(tables) + [Table(base, size)] else old(tables)
    {
      if |tables| == MAPPINGS { return false; }
      tables := tables + [Table(base, size)];
      assert Physical() == old(Physical());
      ok := true;
    }

    /** A snapshot from the command line; overlapping an earlier one is fatal. `host` is where `malloc` placed it. */
    method AddRegion(s: Snapshot) returns (ok: bool)
      requires Valid() && s.bytes !in Arrays() && s.host + s.bytes.Length < WORD
      requires forall i :: 0 <= i < |regions| ==>
        regions[i].host + regions[i].bytes.Length <= s.host || s.host + s.bytes.Length <= regions[i].host
      requires forall j :: 0 <= j < |tables| ==> RangesApart(tables[j], s)
      modifies this`regions, this`initial
      ensures ok <==>
        |old(regions)| < CAPACITY && s.address != 0 && 0 < s.bytes.Length <= 65536 && s.address + s.bytes.Length < WORD
                      && (s.read32Only ==> s.readOffset + 4 <= s.bytes.Length && (s.address + s.readOffset) % 4 == 0)
                      && forall i :: 0 <= i < |old(regions)| ==>
                           Apart(old(Physical())[i], Region(s.address, s.bytes[..]))
      ensures Valid()
      ensures Physical() == if ok then old(Physical()) + [Region(s.address, s.bytes[..])] else old(Physical())
      ensures initial == if ok then old(initial) + [Region(s.address, s.bytes[..])] else old(initial)
    {
      hide Disjoint;
      if |regions| == CAPACITY || s.address == 0 || s.bytes.Length == 0 || s.bytes.Length > 65536 { return false; }
      if s.address >= WORD - s.bytes.Length { return false; }
      if s.read32Only && (s.readOffset + 4 > s.bytes.Length || (s.address + s.readOffset) % 4 != 0) { return false; }
      var i := 0;
      while i < |regions|
        invariant i <= |regions|
        invariant forall k :: 0 <= k < i ==> Apart(Physical()[k], Region(s.address, s.bytes[..]))
      {
        if s.address < regions[i].address + regions[i].bytes.Length && regions[i].address < s.address + s.bytes.Length {
          assert !Apart(Physical()[i], Region(s.address, s.bytes[..]));
          return false;
        }
        i := i + 1;
      }
      ghost var was := Physical();
      regions := regions + [s];
      initial := initial + [Region(s.address, s.bytes[..])];
      assert Physical() == was + [Region(s.address, s.bytes[..])];
      DisjointSnoc(was, Region(s.address, s.bytes[..]));
      ok := true;
    }

    ghost predicate InTable(addr: nat, len: nat)
      reads this`tables
    {
      exists i :: 0 <= i < |tables| && tables[i].base <= addr && addr + len <= tables[i].base + tables[i].size
    }

    /** `uacpi_kernel_map`: tables first, at their own address, then the snapshot that holds the whole range. */
    method Map(addr: nat, len: nat) returns (p: Option<nat>)
      requires Valid()
      modifies this`denied
      ensures Valid() && Physical() == old(Physical())
      ensures InTable(addr, len) ==> p == Some(addr)
      ensures !InTable(addr, len) && p.Some? ==>
        exists i ::
          && 0 <= i < |regions| && Covers(Physical()[i], addr, len)
          && p.value == regions[i].host + (addr - regions[i].address)
      ensures p.None? <==> !InTable(addr, len) && forall i :: 0 <= i < |regions| ==> !Covers(Physical()[i], addr, len)
      ensures denied == old(denied) + if p.None? then 1 else 0
    {
      var i := 0;
      while i < |tables|
        invariant i <= |tables|
        invariant forall k :: 0 <= k < i ==> !(tables[k].base <= addr && addr + len <= tables[k].base + tables[k].size)
      {
        if addr >= tables[i].base && addr - tables[i].base <= tables[i].size
          && len <= tables[i].size - (addr - tables[i].base) {
          return Some(addr);
        }
        i := i + 1;
      }
      i := 0;
      while i < |regions|
        invariant i <= |regions|
        invariant forall k :: 0 <= k < i ==> !Covers(Physical()[k], addr, len)
      {
        var s := regions[i];
        if addr >= s.address && addr - s.address <= s.bytes.Length && len <= s.bytes.Length - (addr - s.address) {
          assert Covers(Physical()[i], addr, len);
          return Some(s.host + (addr - s.address));
        }
        i := i + 1;
      }
      denied := denied + 1;
      assert Physical() == old(Physical());
      return None;
    }

    /** Host pointer `p` addresses `size` bytes of snapshot `i`. */
    predicate Holds(i: nat, p: nat, size: nat)
      requires i < |regions|
      reads this`regions
    {
      regions[i].host <= p && p + size <= regions[i].host + regions[i].bytes.Length
    }

    ghost predicate Admitted(p: nat, size: nat, write: bool)
      reads this`regions
    {
      exists i :: 0 <= i < |regions| && Holds(i, p, size) && regions[i].Admits(p - regions[i].host, size, write)
    }

    lemma OneHolder(i: nat, j: nat, p: nat, size: nat)
      requires WellFormed() && size > 0 && i < |regions| && j < |regions| && Holds(i, p, size) && Holds(j, p, size)
      ensures i == j
    {}

    /** The only snapshot that holds the bytes, or `|regions|`. */
    method Find(p: nat, size: nat) returns (i: nat)
      requires WellFormed() && size > 0
      ensures i <= |regions| && (i < |regions| ==> Holds(i, p, size))
      ensures forall k :: 0 <= k < |regions| && Holds(k, p, size) ==> k == i
    {
      i := 0;
      while i < |regions|
        invariant i <= |regions|
        invariant forall k :: 0 <= k < i ==> !Holds(k, p, size)
      {
        var s := regions[i];
        if p >= s.host && p - s.host <= s.bytes.Length && size <= s.bytes.Length - (p - s.host) {
          forall k | 0 <= k < |regions| && Holds(k, p, size) ensures k == i { OneHolder(i, k, p, size); }
          return;
        }
        i := i + 1;
      }
    }

    method Get(i: nat, at: nat, size: nat) returns (value: nat)
      requires Valid() && i < |regions| && at + size <= regions[i].bytes.Length
      ensures Present(Flat(Physical()), regions[i].address + at, size)
      ensures value == LittleEndian(Load(Flat(Physical()), regions[i].address + at, size))
    {
      hide Flat, Disjoint, LittleEndian;
      ghost var ws := Physical();
      LoadWindow(ws, i, regions[i].address + at, size);
      value := IoModels.Fetch(regions[i].bytes, at, size);
      assert Physical() == ws;
      assert regions[i].bytes[at..at + size] == ws[i].data[at..at + size];
    }

    method Put(i: nat, at: nat, size: nat, value: nat)
      requires Valid() && i < |regions| && at + size <= regions[i].bytes.Length && !regions[i].read32Only
      modifies this`localWrites, Arrays()
      ensures Present(old(Flat(Physical())), regions[i].address + at, size)
      ensures Valid() && Flat(Physical()) == Store(old(Flat(Physical())), regions[i].address + at, BytesOf(value, size))
      ensures localWrites == old(localWrites) + 1
    {
      hide Flat, BytesOf, Disjoint, Splice, Store;
      ghost var ws := Physical();
      var s := regions[i];
      LoadWindow(ws, i, s.address + at, size);
      StoreWindow(ws, i, s.address + at, BytesOf(value, size));
      IoModels.Put(s.bytes, at, size, value);
      localWrites := localWrites + 1;
      assert Physical() == ws[i := Region(s.address, Splice(ws[i].data, at, BytesOf(value, size)))];
    }

    method Serve(i: nat, at: nat, size: nat, value: nat, write: bool) returns (out: nat)
      requires Valid() && i < |regions| && at + size <= regions[i].bytes.Length && regions[i].Admits(at, size, write)
      modifies this`localWrites, Arrays()
      ensures Valid() && Effect(old(Physical()), Physical(), regions[i].address + at, size, value, write, out)
      ensures localWrites == old(localWrites) + if write then 1 else 0
    {
      hide Flat, BytesOf, Disjoint, LittleEndian, Load, Store;
      ghost var ws := Physical();
      if write { out := value; Put(i, at, size, value); } else { out := Get(i, at, size); assert Physical() == ws; }
    }

    /** The access of the flat space at the physical address behind the host pointer. */
    ghost predicate Reached(before: seq<Region>, after: seq<Region>, p: nat, size: nat, value: nat, write: bool,
                            out: nat)
      reads this`regions
    {
      exists i :: 0 <= i < |regions| && ReachedAt(i, before, after, p, size, value, write, out)
    }

    ghost predicate ReachedAt(i: nat, before: seq<Region>, after: seq<Region>, p: nat, size: nat, value: nat,
                              write: bool, out: nat)
      requires i < |regions|
      reads this`regions
    {
      Holds(i, p, size) && Effect(before, after, regions[i].address + (p - regions[i].host), size, value, write, out)
    }

    lemma FoundReached(i: nat, before: seq<Region>, after: seq<Region>, p: nat, size: nat, value: nat, write: bool,
                       out: nat)
      requires i < |regions| && Holds(i, p, size)
      requires Effect(before, after, regions[i].address + (p - regions[i].host), size, value, write, out)
      ensures Reached(before, after, p, size, value, write, out)
    {
      hide Effect;
      assert ReachedAt(i, before, after, p, size, value, write, out);
    }

    lemma FoundAdmits(i: nat, p: nat, size: nat, write: bool)
      requires i <= |regions| && (i < |regions| ==> Holds(i, p, size))
      requires forall k :: 0 <= k < |regions| && Holds(k, p, size) ==> k == i
      ensures Admitted(p, size, write) <==> i < |regions| && regions[i].Admits(p - regions[i].host, size, write)
    {}

    /**
     * `snapshot_memory` through a host pointer. `alive` is false when the access is refused, which ends the run.
     * An access that goes through is the access of the flat physical space at the pointer's physical address.
     */
    method Access(p: nat, size: nat, value: nat, write: bool) returns (alive: bool, out: nat)
      requires Valid() && (size == 1 || size == 2 || size == 4 || size == 8)
      modifies this`accesses, this`localWrites, Arrays()
      ensures alive <==> old(accesses) < BUDGET && Admitted(p, size, write)
      ensures alive ==>
        Valid() && accesses == old(accesses) + 1 && localWrites == old(localWrites) + if write then 1 else 0
      ensures alive ==> Reached(old(Physical()), Physical(), p, size, value, write, out)
    {
      hide Disjoint, Effect, HostDisjoint, TablesApart, Untouched, Admitted, Reached;
      out := value;
      if accesses + 1 > BUDGET { return false, out; }
      accesses := accesses + 1;
      var i := Find(p, size);
      FoundAdmits(i, p, size, write);
      if i == |regions| || !regions[i].Admits(p - regions[i].host, size, write) { return false, out; }
      out := Serve(i, p - regions[i].host, size, value, write);
      FoundReached(i, old(Physical()), Physical(), p, size, value, write, out);
      alive := true;
    }

    lemma HeldAdmits(i: nat, p: nat, size: nat, write: bool)
      requires WellFormed() && size > 0 && i < |regions| && Holds(i, p, size)
      ensures Admitted(p, size, write) <==> regions[i].Admits(p - regions[i].host, size, write)
    {
      forall k | 0 <= k < |regions| && Holds(k, p, size) ensures k == i { OneHolder(i, k, p, size); }
      FoundAdmits(i, p, size, write);
    }

    lemma HeldReached(i: nat, before: seq<Region>, after: seq<Region>, p: nat, size: nat, value: nat, write: bool,
                      out: nat)
      requires WellFormed() && size > 0 && i < |regions| && Holds(i, p, size)
      requires Reached(before, after, p, size, value, write, out)
      ensures Effect(before, after, regions[i].address + (p - regions[i].host), size, value, write, out)
    {
      hide Effect;
      var k :| 0 <= k < |regions| && ReachedAt(k, before, after, p, size, value, write, out);
      OneHolder(i, k, p, size);
    }

    /** A pointer that snapshot `i` holds reaches the bytes of that snapshot; one that is not `held` reaches nothing. */
    method AccessHeld(ghost held: bool, ghost i: nat, p: nat, size: nat, value: nat, write: bool)
      returns (alive: bool, out: nat)
      requires Valid() && (size == 1 || size == 2 || size == 4 || size == 8)
      requires held ==> i < |regions| && Holds(i, p, size)
      requires !held ==> !Admitted(p, size, write)
      modifies this`accesses, this`localWrites, Arrays()
      ensures alive <==> held && old(accesses) < BUDGET && regions[i].Admits(p - regions[i].host, size, write)
      ensures alive ==> Valid()
      ensures alive ==>
        Effect(old(Physical()), Physical(), regions[i].address + (p - regions[i].host), size, value, write, out)
    {
      hide Disjoint, Effect, Untouched, Admitted, Reached, WellFormed, Physical;
      if held { HeldAdmits(i, p, size, write); }
      alive, out := Access(p, size, value, write);
      if alive { HeldReached(i, old(Physical()), Physical(), p, size, value, write, out); }
    }

    /** `Map`, with the snapshot it found when no table holds the range. */
    method MapSnapshot(addr: nat, len: nat) returns (p: Option<nat>, ghost i: nat)
      requires Valid()
      modifies this`denied
      ensures Valid() && Physical() == old(Physical())
      ensures p.Some? <==> InTable(addr, len) || exists k :: 0 <= k < |regions| && Covers(Physical()[k], addr, len)
      ensures InTable(addr, len) ==> p == Some(addr)
      ensures p.Some? && !InTable(addr, len) ==>
        i < |regions| && Covers(Physical()[i], addr, len) && p.value == regions[i].host + (addr - regions[i].address)
    {
      hide Disjoint, HostDisjoint, TablesApart, Untouched, InTable;
      i := 0;
      p := Map(addr, len);
      if p.Some? && !InTable(addr, len) {
        i :| 0 <= i < |regions| && Covers(Physical()[i], addr, len)
          && p.value == regions[i].host + (addr - regions[i].address);
      }
    }

    /** A pointer into a table is held by no snapshot. */
    lemma TableNotHeld(addr: nat, len: nat, off: nat, size: nat, write: bool)
      requires WellFormed() && InTable(addr, len) && off + size <= len && size > 0
      ensures !Admitted(addr + off, size, write)
    {
      hide HostDisjoint;
      var k :| 0 <= k < |tables| && tables[k].base <= addr && addr + len <= tables[k].base + tables[k].size;
      var p := addr + off;
      forall j | 0 <= j < |regions| ensures !Holds(j, p, size) { assert RangesApart(tables[k], regions[j]); }
    }

    /**
     * Mapping a range and accessing it at `off`: an access that survives is the access of the flat physical space at
     * `addr + off`. It survives exactly when no table holds the range and the snapshot that does admits it.
     */
    method AccessMapped(addr: nat, len: nat, off: nat, size: nat, value: nat, write: bool)
      returns (mapped: bool, alive: bool, out: nat)
      requires Valid() && (size == 1 || size == 2 || size == 4 || size == 8) && off + size <= len
      modifies this`denied, this`accesses, this`localWrites, Arrays()
      ensures mapped <==> InTable(addr, len) || exists i :: 0 <= i < |regions| && Covers(old(Physical())[i], addr, len)
      ensures mapped ==>
        (alive <==> !InTable(addr, len) && old(accesses) < BUDGET && AdmitsAt(addr + off, size, write))
      ensures mapped && alive ==> Valid() && Effect(old(Physical()), Physical(), addr + off, size, value, write, out)
    {
      hide Disjoint, Effect, HostDisjoint, Untouched, WellFormed, AdmitsAt, InTable, Admitted;
      mapped, alive, out := false, false, value;
      var p, i := MapSnapshot(addr, len);
      if p.None? { return; }
      mapped := true;
      ghost var held := !InTable(addr, len);
      if held { OneAdmits(addr, len, i, off, size, write); } else { TableNotHeld(addr, len, off, size, write); }
      alive, out := AccessHeld(held, i, p.value + off, size, value, write);
    }

    /** The snapshot that holds `[a, a + size)` admits such an access there. */
    ghost predicate AdmitsAt(a: nat, size: nat, write: bool)
      reads this`regions
    {
      exists i :: 0 <= i < |regions| && AdmittedBy(i, a, size, write)
    }

    ghost predicate AdmittedBy(i: nat, a: nat, size: nat, write: bool)
      requires i < |regions|
      reads this`regions
    {
      && regions[i].address <= a && a + size <= regions[i].address + regions[i].bytes.Length
      && regions[i].Admits(a - regions[i].address, size, write)
    }

    /** Inside a mapped range it is the snapshot the range was mapped to. */
    lemma OneAdmits(addr: nat, len: nat, i: nat, off: nat, size: nat, write: bool)
      requires Valid() && i < |regions| && Covers(Physical()[i], addr, len) && off + size <= len && size > 0
      ensures AdmitsAt(addr + off, size, write) <==> regions[i].Admits(addr - regions[i].address + off, size, write)
    {
      hide Disjoint, HostDisjoint, Untouched;
      var a := addr + off;
      forall j | 0 <= j < |regions| && AdmittedBy(j, a, size, write) ensures j == i {
        if j != i { ApartPair(Physical(), i, j); }
      }
      assert AdmittedBy(i, a, size, write) <==> regions[i].Admits(a - regions[i].address, size, write);
    }
  }
}
