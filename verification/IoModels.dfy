/** SystemIO byte models of the offline ACPI host: disjoint windows behind one flat port space, some of them guarded. */
module IoModels {
  import opened Collections
  import opened FlatMemory

  const PORTS: nat := 65536
  const BUDGET: nat := 4096

  // ------------------------------------------------------------------- rules

  /** Bit `i` of a value. */
  predicate Bit(n: nat, i: nat) {
    if i == 0 then n % 2 == 1 else Bit(n / 2, i - 1)
  }

  /** `acpi_io_rule`: one port, one width in bits, the bits a write may change and those it may only set. */
  datatype Rule = Rule(address: nat, width: nat, writable: nat, setOnly: nat)

  /** `limit(width)`, plus one. */
  function Limit(width: nat): nat {
    if width == 8 then 0x100 else if width == 16 then 0x1_0000 else 0x1_0000_0000
  }

  predicate RuleRead(r: Rule, address: nat, width: nat) {
    && (width == 8 || width == 16 || width == 32) && r.width == width
    && address == r.address && address + width / 8 <= PORTS
    && r.writable < Limit(width)
    && (forall i :: 0 <= i < 32 && Bit(r.setOnly, i) ==> Bit(r.writable, i))
  }

  predicate RuleWrite(r: Rule, address: nat, width: nat, before: nat, value: nat) {
    && RuleRead(r, address, width) && r.writable != 0 && before < Limit(width) && value < Limit(width)
    && (forall i :: 0 <= i < 32 && Bit(before, i) != Bit(value, i) ==> Bit(r.writable, i))
    && (forall i :: 0 <= i < 32 && Bit(before, i) && Bit(r.setOnly, i) ==> Bit(value, i))
  }

  /** Only bits of `mask` differ, and they only went from clear to set. */
  predicate Evolves(mask: nat, before: nat, after: nat) {
    forall i :: 0 <= i < 32 && Bit(before, i) != Bit(after, i) ==> Bit(mask, i) && Bit(after, i)
  }

  lemma EvolvesOn(mask: nat, a: nat, b: nat, c: nat)
    requires Evolves(mask, a, b) && Evolves(mask, b, c)
    ensures Evolves(mask, a, c)
  {
    forall i | 0 <= i < 32 && Bit(a, i) != Bit(c, i) ensures Bit(mask, i) && Bit(c, i) {
      assert Bit(a, i) != Bit(b, i) || Bit(b, i) != Bit(c, i);
    }
  }

  lemma EvolvesSelf(mask: nat, a: nat)
    ensures Evolves(mask, a, a)
  {}

  // ------------------------------------------------------------------ models

  /** One window; a guarded one holds a single byte under the rule `{base, 8, mask, mask}`. */
  datatype IoModel = IoModel(base: nat, bytes: array<byte>, guarded: bool, mask: nat) {
    function GuardRule(): Rule { Rule(base, 8, mask, mask) }

    predicate Admits(address: nat, width: nat, before: nat, value: nat, write: bool) {
      guarded ==> RuleRead(GuardRule(), address, 8 * width)
                  && (write ==> RuleWrite(GuardRule(), address, 8 * width, before, value))
    }
  }

  datatype Mapping = Mapping(base: nat, size: nat)

  predicate ValidMapping(m: Mapping) {
    m.base < PORTS && m.base + m.size <= PORTS
  }

  predicate Meets(r: Region, base: nat, len: nat) {
    base < r.base + |r.data| && r.base < base + len
  }

  datatype Status = Ok | Denied | OutOfMemory | Fatal

  /** `old |= byte << 8*j` over the accessed bytes. */
  method Fetch(bytes: array<byte>, at: nat, width: nat) returns (value: nat)
    requires at + width <= bytes.Length
    ensures value == LittleEndian(bytes[at..at + width])
  {
    value := 0;
    var j: nat, p: nat := 0, 1;
    while j < width
      invariant j <= width && p == Power(j)
      invariant value == LittleEndian(bytes[at..at + j])
    {
      LittleEndianSnoc(bytes[at..at + j], bytes[at + j]);
      assert bytes[at..at + j + 1] == bytes[at..at + j] + [bytes[at + j]];
      value := value + (bytes[at + j] as int) * p;
      j, p := j + 1, 256 * p;
    }
  }

  /** `byte = value >> 8*j` over the accessed bytes, in place. */
  method Put(bytes: array<byte>, at: nat, width: nat, value: nat)
    requires at + width <= bytes.Length
    modifies bytes
    ensures bytes[..] == Splice(old(bytes[..]), at, BytesOf(value, width))
  {
    var j: nat, p: nat := 0, 1;
    ghost var bs, was := BytesOf(value, width), bytes[..];
    while j < width
      invariant j <= width && p == Power(j)
      invariant forall k :: 0 <= k < bytes.Length ==> bytes[k] == if at <= k < at + j then bs[k - at] else was[k]
    {
      ByteAt(value, width, j);
      bytes[at + j] := value / p % 256;
      j, p := j + 1, 256 * p;
    }
  }

  /** Every guarded byte has only ever gained bits of its mask. */
  ghost predicate GuardsHold(ms: seq<IoModel>, initial: seq<Region>, ws: seq<Region>) {
    && |ms| == |ws| && SameShape(initial, ws)
    && forall i :: 0 <= i < |ms| && ms[i].guarded && |ws[i].data| == 1 ==>
         Evolves(ms[i].mask, initial[i].data[0], ws[i].data[0])
  }

  class IoSpace {
    var models: seq<IoModel>
    var accesses: nat
    var denied: nat
    /** The windows as they were first loaded. */
    ghost var initial: seq<Region>

    ghost function Arrays(): set<array<byte>>
      reads this`models
    {
      set m <- models :: m.bytes
    }

    ghost function Windows(): (rs: seq<Region>)
      reads this`models, Arrays()
      ensures |rs| == |models|
      ensures forall i :: 0 <= i < |models| ==> rs[i] == Region(models[i].base, models[i].bytes[..])
    {
      var ms, arrays := models, Arrays();
      seq(|ms|, i requires 0 <= i < |ms| && ms[i].bytes in arrays reads arrays => Region(ms[i].base, ms[i].bytes[..]))
    }

    ghost predicate WellFormed()
      reads this
    {
      && |models| <= 16 && accesses <= BUDGET
      && (forall i :: 0 <= i < |models| ==>
           0 < models[i].bytes.Length && models[i].base + models[i].bytes.Length <= PORTS)
      && (forall i :: 0 <= i < |models| && models[i].guarded ==>
           models[i].bytes.Length == 1 && 0 < models[i].mask < 256)
      && (forall i, j :: 0 <= i < j < |models| ==> models[i].bytes != models[j].bytes)
    }

    ghost predicate Valid()
      reads this, Arrays()
    {
      WellFormed() && Disjoint(Windows()) && GuardsHold(models, initial, Windows())
    }

    constructor ()
      ensures Valid() && models == []
    {
      models, accesses, denied, initial := [], 0, 0, [];
    }

    /** The first model that covers the access, or `|models|`. */
    method Find(address: nat, width: nat) returns (i: nat)
      requires Valid()
      ensures i <= |models|
      ensures i < |models| ==> Covers(Windows()[i], address, width)
      ensures i == |models| ==> forall k :: 0 <= k < |models| ==> !Covers(Windows()[k], address, width)
    {
      i := 0;
      while i < |models|
        invariant i <= |models|
        invariant forall k :: 0 <= k < i ==> !Covers(Windows()[k], address, width)
      {
        var m := models[i];
        if m.base <= address {
          var at := address - m.base;
          if at <= m.bytes.Length && width <= m.bytes.Length - at { return; }
        }
        i := i + 1;
      }
    }

    /** `uacpi_kernel_io_map`: a range may be mapped when it meets some model; `memory` is the allocator's answer. */
    method Map(base: nat, len: nat, memory: bool) returns (st: Status, mapping: Option<Mapping>)
      requires Valid()
      modifies this`denied
      ensures Valid() && Windows() == old(Windows())
      ensures var meets := base < PORTS && 0 < len <= PORTS - base
          && exists i :: 0 <= i < |models| && Meets(Windows()[i], base, len);
        && (st == Ok <==> meets && memory) && (st == OutOfMemory <==> meets && !memory)
        && (st == Denied <==> !meets) && denied == old(denied) + if meets then 0 else 1
      ensures mapping == if st == Ok then Some(Mapping(base, len)) else None
      ensures st == Ok ==> ValidMapping(mapping.value)
    {
      if base < PORTS && 0 < len <= PORTS - base {
        var i := 0;
        while i < |models|
          invariant i <= |models|
          invariant forall k :: 0 <= k < i ==> !Meets(Windows()[k], base, len)
        {
          if base < models[i].base + models[i].bytes.Length && models[i].base < base + len {
            assert Meets(Windows()[i], base, len);
            if memory { return Ok, Some(Mapping(base, len)); } else { return OutOfMemory, None; }
          }
          i := i + 1;
        }
      }
      denied := denied + 1;
      assert Windows() == old(Windows());
      return Denied, None;
    }

    /** A new model, as the command line adds it; overlapping any earlier one is fatal. */
    method AddModel(base: nat, bytes: array<byte>, guarded: bool, mask: nat) returns (ok: bool)
      requires Valid() && bytes !in Arrays()
      modifies this`models, this`initial
      ensures ok <==> |old(models)| < 16 && base < PORTS && (guarded ==> 0 < mask < 256 && bytes.Length == 1)
                      && 0 < bytes.Length <= PORTS - base
                      && forall i :: 0 <= i < |old(models)| ==> Apart(old(Windows())[i], Region(base, bytes[..]))
      ensures Valid()
      ensures Windows() == if ok then old(Windows()) + [Region(base, bytes[..])] else old(Windows())
      ensures initial == if ok then old(initial) + [Region(base, bytes[..])] else old(initial)
    {
      hide Bit, Evolves, Disjoint;
      var m := IoModel(base, bytes, guarded, mask);
      if |models| == 16 || base >= PORTS || (guarded && !(0 < mask < 256)) { return false; }
      if bytes.Length == 0 || bytes.Length > PORTS - base || (guarded && bytes.Length != 1) { return false; }
      var i := 0;
      while i < |models|
        invariant i <= |models|
        invariant forall k :: 0 <= k < i ==> Apart(Windows()[k], Region(base, bytes[..]))
      {
        if base < models[i].base + models[i].bytes.Length && models[i].base < base + bytes.Length {
          assert !Apart(Windows()[i], Region(base, bytes[..]));
          return false;
        }
        i := i + 1;
      }
      ghost var was := Windows();
      models := models + [m];
      initial := initial + [Region(base, bytes[..])];
      assert Windows() == was + [Region(base, bytes[..])];
      DisjointSnoc(was, Region(base, bytes[..]));
      assert guarded ==> Evolves(mask, bytes[0], bytes[0]) by { if guarded { EvolvesSelf(mask, bytes[0]); } }
      ok := true;
    }

    method Deny() returns (st: Status)
      requires Valid()
      modifies this`denied
      ensures Valid() && Windows() == old(Windows()) && denied == old(denied) + 1 && st == Denied
    {
      denied := denied + 1;
      assert Windows() == old(Windows());
      st := Denied;
    }

    /** Store through model `i`, whose guard has admitted the write. */
    method Write(i: nat, address: nat, width: nat, value: nat)
      requires Valid() && i < |models| && Covers(Windows()[i], address, width)
      requires Reaches(models[i], Windows()[i], address, width, value, true)
      modifies Arrays()
      ensures Valid() && Flat(Windows()) == Store(old(Flat(Windows())), address, BytesOf(value, width))
    {
      hide Flat, LittleEndian, BytesOf, Disjoint, GuardsHold, Splice, Store, Reaches;
      var m := models[i];
      ghost var ws := Windows();
      GuardsKept(models, initial, ws, i, address, width, value);
      StoreWindow(ws, i, address, BytesOf(value, width));
      Put(m.bytes, address - m.base, width, value);
      assert Windows() == ws[i := Region(m.base, Splice(ws[i].data, address - m.base, BytesOf(value, width)))];
    }

    /** The loop over the models: the first that covers the access serves or refuses it. */
    method Serve(address: nat, width: nat, value: nat, write: bool) returns (st: Status, out: nat)
      requires Valid() && width > 0
      modifies this`denied, Arrays()
      ensures Valid() && (st == Ok || st == Denied)
      ensures st == Ok <==> Served(models, old(Windows()), address, width, value, write)
      ensures st == Ok ==> Effect(old(Windows()), Windows(), address, width, value, write, out)
      ensures st != Ok ==> Windows() == old(Windows())
      ensures denied == old(denied) + if st == Ok then 0 else 1
    {
      hide Flat, Disjoint, Reaches, Effect, Evolves;
      ghost var ws := Windows();
      var i := Find(address, width);
      assert Windows() == ws;
      if i == |models| {
        NoReach(models, ws, address, width, value, write);
        out := value;
        st := Deny();
        return;
      }
      OneReach(models, ws, i, address, width, value, write);
      st, out := ServeBy(i, address, width, value, write);
    }

    method ServeBy(i: nat, address: nat, width: nat, value: nat, write: bool) returns (st: Status, out: nat)
      requires Valid() && i < |models| && Covers(Windows()[i], address, width)
      modifies this`denied, Arrays()
      ensures Valid() && (st == Ok || st == Denied)
      ensures st == Ok <==> Reaches(models[i], old(Windows())[i], address, width, value, write)
      ensures st == Ok ==> Effect(old(Windows()), Windows(), address, width, value, write, out)
      ensures st != Ok ==> Windows() == old(Windows())
      ensures denied == old(denied) + if st == Ok then 0 else 1
    {
      hide Flat, LittleEndian, BytesOf, Disjoint, Load, Store, GuardsHold;
      ghost var ws := Windows();
      out := value;
      var m := models[i];
      var before := Fetch(m.bytes, address - m.base, width);
      assert Windows() == ws;
      LoadWindow(ws, i, address, width);
      if !m.Admits(address, width, before, value, write) { st := Deny(); return; }
      if write { Write(i, address, width, value); } else { out := before; }
      st := Ok;
    }

    /** `model_io`; the null mapping is `None`. */
    method Access(mapping: Option<Mapping>, offset: nat, width: nat, value: nat, write: bool)
      returns (st: Status, out: nat)
      requires Valid() && (width == 1 || width == 2 || width == 4) && value < Power(width)
      requires mapping.Some? ==> ValidMapping(mapping.value)
      modifies this`accesses, this`denied, Arrays()
      ensures st == Fatal <==> old(accesses) == BUDGET
      ensures st == Ok <==> old(accesses) < BUDGET && mapping.Some?
                            && Permitted(models, old(Windows()), mapping.value, offset, width, value, write)
      ensures st == Ok || st == Denied || st == Fatal
      ensures st != Fatal ==> Valid() && accesses == old(accesses) + 1
      ensures st == Ok ==> Effect(old(Windows()), Windows(), mapping.value.base + offset, width, value, write, out)
      ensures st != Ok ==> Windows() == old(Windows())
      ensures denied == old(denied) + if st == Denied then 1 else 0
    {
      hide Disjoint, GuardsHold, Served, Power, Effect;
      out := value;
      if accesses + 1 > BUDGET { return Fatal, out; }
      accesses := accesses + 1;
      ghost var ws := Windows();
      assert ws == old(Windows());
      assert Valid();
      if mapping.None? || offset > mapping.value.size || width > mapping.value.size - offset {
        st := Deny();
        return;
      }
      st, out := Serve(mapping.value.base + offset, width, value, write);
    }

    /** Two accesses in turn: what was written through a mapping is what is read back through it. */
    method WriteThenRead(mapping: Option<Mapping>, offset: nat, width: nat, value: nat)
      returns (wrote: Status, st: Status, out: nat)
      requires Valid() && (width == 1 || width == 2 || width == 4) && value < Power(width)
      requires mapping.Some? ==> ValidMapping(mapping.value)
      modifies this`accesses, this`denied, Arrays()
      ensures wrote == Ok <==> old(accesses) < BUDGET && mapping.Some?
                               && Permitted(models, old(Windows()), mapping.value, offset, width, value, true)
      ensures wrote == Ok && old(accesses) + 1 < BUDGET ==> st == Ok && out == value
      ensures wrote != Ok ==> st == wrote && Windows() == old(Windows())
    {
      hide Disjoint, GuardsHold, Permitted, Power, Effect;
      ghost var ws := Windows();
      wrote, out := Access(mapping, offset, width, value, true);
      if wrote != Ok { return wrote, wrote, out; }
      ghost var ws' := Windows();
      assert SameShape(ws, ws');
      StillPermitted(models, ws, ws', mapping.value, offset, width, value);
      ghost var written := out;
      st, out := Access(mapping, offset, width, value, false);
      if st == Ok { ReadBack(models, ws, ws', Windows(), mapping.value, offset, width, value, written, out); }
    }
  }

  ghost predicate Reaches(m: IoModel, r: Region, address: nat, width: nat, value: nat, write: bool) {
    Covers(r, address, width)
      && m.Admits(address, width, LittleEndian(r.data[address - r.base..address - r.base + width]), value, write)
  }

  /** What an access through `mapping` must meet: inside the mapping, inside one model, admitted by its guard. */
  ghost predicate Permitted(ms: seq<IoModel>, ws: seq<Region>, mapping: Mapping, offset: nat, width: nat, value: nat,
                            write: bool)
    requires |ms| == |ws|
  {
    offset + width <= mapping.size && Served(ms, ws, mapping.base + offset, width, value, write)
  }

  ghost predicate Served(ms: seq<IoModel>, ws: seq<Region>, address: nat, width: nat, value: nat, write: bool)
    requires |ms| == |ws|
  {
    exists i :: 0 <= i < |ms| && Reaches(ms[i], ws[i], address, width, value, write)
  }

  lemma NoReach(ms: seq<IoModel>, ws: seq<Region>, address: nat, width: nat, value: nat, write: bool)
    requires |ms| == |ws| && forall k :: 0 <= k < |ws| ==> !Covers(ws[k], address, width)
    ensures !Served(ms, ws, address, width, value, write)
  {}

  /** Disjoint windows: no other model can serve an access this one covers. */
  lemma OneReach(ms: seq<IoModel>, ws: seq<Region>, i: nat, address: nat, width: nat, value: nat, write: bool)
    requires |ms| == |ws| && Disjoint(ws) && width > 0 && i < |ws| && Covers(ws[i], address, width)
    ensures forall j :: 0 <= j < |ms| && Reaches(ms[j], ws[j], address, width, value, write) ==> i == j
  {
    forall j | 0 <= j < |ms| && Reaches(ms[j], ws[j], address, width, value, write) ensures i == j {
      if i != j { ApartPair(ws, i, j); }
    }
  }

  /** An admitted write to a guarded byte only sets bits of the mask. */
  lemma GuardedWrite(m: IoModel, r: Region, address: nat, width: nat, value: nat)
    requires m.guarded && r.base == m.base && |r.data| == 1 && Reaches(m, r, address, width, value, true)
    ensures address == m.base && width == 1
    ensures Evolves(m.mask, r.data[0], Splice(r.data, 0, BytesOf(value, 1))[0])
  {
    hide Bit;
    assert BytesOf(value, 1)[0] == value % 256 == value;
    assert r.data[0..1] == [r.data[0]];
    assert LittleEndian([r.data[0]]) == r.data[0] by { assert [r.data[0]][1..] == []; }
  }

  lemma GuardsKept(ms: seq<IoModel>, initial: seq<Region>, ws: seq<Region>, i: nat, address: nat, width: nat,
                   value: nat)
    requires GuardsHold(ms, initial, ws) && i < |ms| && ws[i].base == ms[i].base
    requires ms[i].guarded ==> |ws[i].data| == 1
    requires Covers(ws[i], address, width) && Reaches(ms[i], ws[i], address, width, value, true)
    ensures GuardsHold(ms, initial,
      ws[i := Region(ws[i].base, Splice(ws[i].data, address - ws[i].base, BytesOf(value, width)))])
  {
    hide Evolves, Splice, BytesOf, Reaches;
    if ms[i].guarded {
      GuardedWrite(ms[i], ws[i], address, width, value);
      EvolvesOn(ms[i].mask, initial[i].data[0], ws[i].data[0], Splice(ws[i].data, 0, BytesOf(value, 1))[0]);
    }
  }

  lemma StoredValue(m: map<nat, byte>, a: nat, v: nat, width: nat)
    requires v < Power(width)
    ensures Present(Store(m, a, BytesOf(v, width)), a, width)
    ensures LittleEndian(Load(Store(m, a, BytesOf(v, width)), a, width)) == v
  {
    LoadAfterStore(m, a, BytesOf(v, width));
    ValueOfBytes(v, width);
  }

  /** A place that admits a write admits a read, also afterwards: guards look at the bytes for writes only. */
  lemma StillPermitted(ms: seq<IoModel>, ws: seq<Region>, ws': seq<Region>, mapping: Mapping, offset: nat, width: nat,
                       value: nat)
    requires |ms| == |ws| && SameShape(ws, ws') && Permitted(ms, ws, mapping, offset, width, value, true)
    ensures Permitted(ms, ws', mapping, offset, width, value, false)
  {
    hide LittleEndian, RuleRead, RuleWrite;
    var a := mapping.base + offset;
    var i :| 0 <= i < |ms| && Reaches(ms[i], ws[i], a, width, value, true);
    assert Reaches(ms[i], ws'[i], a, width, value, false);
  }

  /**
   * A permitted write followed by a read through the same mapping, guards included: the read is permitted, and
   * whatever it yields as an access of the flat space is the value written.
   */
  lemma ReadBack(ms: seq<IoModel>, ws: seq<Region>, ws': seq<Region>, ws'': seq<Region>, mapping: Mapping, offset: nat,
                 width: nat, value: nat, out: nat, out': nat)
    requires |ms| == |ws| && SameShape(ws, ws') && value < Power(width)
    requires Permitted(ms, ws, mapping, offset, width, value, true)
    requires Effect(ws, ws', mapping.base + offset, width, value, true, out)
    requires Effect(ws', ws'', mapping.base + offset, width, value, false, out')
    ensures Permitted(ms, ws', mapping, offset, width, value, false)
    ensures out' == value && ws'' == ws'
  {
    hide LittleEndian, BytesOf, Load, Store, Flat, Permitted, Power, SameShape;
    StillPermitted(ms, ws, ws', mapping, offset, width, value);
    StoredValue(Flat(ws), mapping.base + offset, value, width);
  }

  lemma WrittenBack(m: map<nat, byte>, a: nat, bs: seq<byte>)
    requires Present(m, a, |bs|) && Load(m, a, |bs|) == bs
    ensures Store(m, a, bs) == m
  {
    hide Load;
    var m' := Store(m, a, bs);
    forall k | k in m' ensures k in m && m'[k] == m[k] {
      StoreAt(m, a, bs, k);
      if a <= k < a + |bs| { assert Load(m, a, |bs|)[k - a] == m[a + (k - a)]; }
    }
    forall k | k in m ensures k in m' {}
  }

  /** Writing back what a read of the same width gave leaves the flat space as it was. */
  lemma WriteBack(ws: seq<Region>, ws': seq<Region>, ws'': seq<Region>, a: nat, width: nat, value: nat, out: nat,
                  out': nat)
    requires Effect(ws, ws', a, width, value, false, out)
    requires Effect(ws', ws'', a, width, out, true, out')
    ensures Flat(ws'') == Flat(ws)
  {
    hide LittleEndian, BytesOf, Load, Store, Flat, Power;
    var bs := Load(Flat(ws), a, width);
    BytesOfValue(bs);
    WrittenBack(Flat(ws), a, bs);
  }
}
