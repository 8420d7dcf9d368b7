/** Disjoint byte windows read as one flat address space, and little-endian access to it. */
module FlatMemory {

  type byte = x: int | 0 <= x < 256

  datatype Region = Region(base: nat, data: seq<byte>)

  /** `[a, a + n)` lies in the window. */
  predicate Covers(r: Region, a: nat, n: nat) {
    r.base <= a && a + n <= r.base + |r.data|
  }

  predicate Apart(r: Region, s: Region) {
    r.base + |r.data| <= s.base || s.base + |s.data| <= r.base
  }

  predicate Disjoint(rs: seq<Region>) {
    forall i, j :: 0 <= i < j < |rs| ==> Apart(rs[i], rs[j])
  }

  lemma DisjointSnoc(rs: seq<Region>, r: Region)
    requires Disjoint(rs) && forall i :: 0 <= i < |rs| ==> Apart(rs[i], r)
    ensures Disjoint(rs + [r])
  {}

  predicate Mapped(rs: seq<Region>, a: nat) {
    exists i :: 0 <= i < |rs| && Covers(rs[i], a, 1)
  }

  function Range(a: nat, n: nat): (r: set<nat>)
    ensures forall k :: k in r <==> a <= k < a + n
  {
    if n == 0 then {} else Range(a, n - 1) + {a + n - 1}
  }

  ghost function Cells(r: Region): map<nat, byte> {
    map a | a in Range(r.base, |r.data|) :: r.data[a - r.base]
  }

  /** The one address space the windows stand for. */
  ghost function Flat(rs: seq<Region>): map<nat, byte> {
    if rs == [] then map[] else Flat(rs[..|rs| - 1]) + Cells(rs[|rs| - 1])
  }

  lemma {:induction false} FlatAt(rs: seq<Region>, i: nat, a: nat)
    requires Disjoint(rs) && i < |rs| && Covers(rs[i], a, 1)
    ensures a in Flat(rs) && Flat(rs)[a] == rs[i].data[a - rs[i].base]
  {
    var n := |rs| - 1;
    if i < n {
      FlatAt(rs[..n], i, a);
      assert Apart(rs[i], rs[n]);
      assert a !in Cells(rs[n]);
    }
  }

  lemma {:induction false} FlatDomain(rs: seq<Region>, a: nat)
    ensures a in Flat(rs) <==> Mapped(rs, a)
  {
    hide Mapped, Range, Covers;
    if rs == [] {
      NothingMapped(a);
    } else {
      var n := |rs| - 1;
      FlatDomain(rs[..n], a);
      MappedSnoc(rs, a);
      CellsDomain(rs[n], a);
    }
  }

  lemma NothingMapped(a: nat)
    ensures !Mapped([], a)
  {}

  lemma MappedSnoc(rs: seq<Region>, a: nat)
    requires rs != []
    ensures Mapped(rs, a) <==> Mapped(rs[..|rs| - 1], a) || Covers(rs[|rs| - 1], a, 1)
  {
    hide Covers;
    var init := rs[..|rs| - 1];
    if Mapped(init, a) {
      var i :| 0 <= i < |init| && Covers(init[i], a, 1);
      assert rs[i] == init[i];
    }
    if Mapped(rs, a) {
      var i :| 0 <= i < |rs| && Covers(rs[i], a, 1);
      if i < |init| { assert init[i] == rs[i]; }
    }
  }

  lemma CellsDomain(r: Region, a: nat)
    ensures a in Cells(r) <==> Covers(r, a, 1)
  {}

  // ------------------------------------------------------------------ ranges

  predicate Present(m: map<nat, byte>, a: nat, n: nat) {
    forall k :: a <= k < a + n ==> k in m
  }

  ghost function Load(m: map<nat, byte>, a: nat, n: nat): (bs: seq<byte>)
    requires Present(m, a, n)
    ensures |bs| == n && forall k :: 0 <= k < n ==> bs[k] == m[a + k]
  {
    seq(n, k requires 0 <= k < n => m[a + k])
  }

  ghost function Store(m: map<nat, byte>, a: nat, bs: seq<byte>): map<nat, byte> {
    m + map k | k in Range(a, |bs|) :: bs[k - a]
  }

  lemma StoreAt(m: map<nat, byte>, a: nat, bs: seq<byte>, k: nat)
    requires k in Store(m, a, bs)
    ensures a <= k < a + |bs| ==> Store(m, a, bs)[k] == bs[k - a]
    ensures !(a <= k < a + |bs|) ==> k in m && Store(m, a, bs)[k] == m[k]
  {}

  function Splice(data: seq<byte>, at: nat, bs: seq<byte>): (r: seq<byte>)
    requires at + |bs| <= |data|
    ensures |r| == |data|
    ensures forall k :: 0 <= k < |data| ==> r[k] == if at <= k < at + |bs| then bs[k - at] else data[k]
  {
    data[..at] + bs + data[at + |bs|..]
  }

  /** A range inside one window reads as the window's own bytes. */
  lemma LoadWindow(rs: seq<Region>, i: nat, a: nat, n: nat)
    requires Disjoint(rs) && i < |rs| && Covers(rs[i], a, n)
    ensures Present(Flat(rs), a, n)
    ensures Load(Flat(rs), a, n) == rs[i].data[a - rs[i].base..a - rs[i].base + n]
  {
    hide Flat, Disjoint;
    forall k | a <= k < a + n ensures k in Flat(rs) && Flat(rs)[k] == rs[i].data[k - rs[i].base] { FlatAt(rs, i, k); }
  }

  /** Writing inside one window writes the flat space, and nothing else. */
  lemma StoreWindow(rs: seq<Region>, i: nat, a: nat, bs: seq<byte>)
    requires Disjoint(rs) && i < |rs| && Covers(rs[i], a, |bs|)
    ensures var rs' := rs[i := Region(rs[i].base, Splice(rs[i].data, a - rs[i].base, bs))];
      Disjoint(rs') && Flat(rs') == Store(Flat(rs), a, bs)
  {
    hide Flat, Disjoint, Splice;
    var rs' := rs[i := Region(rs[i].base, Splice(rs[i].data, a - rs[i].base, bs))];
    var m, m' := Store(Flat(rs), a, bs), Flat(rs');
    SameShapeDisjoint(rs, rs');
    forall k: nat ensures k in m' <==> k in m { StoredDomain(rs, rs', i, a, bs, k); }
    forall k | k in m ensures m'[k] == m[k] { StoredAt(rs, rs', i, a, bs, k); }
  }

  predicate SameShape(rs: seq<Region>, rs': seq<Region>) {
    |rs| == |rs'| && forall i :: 0 <= i < |rs| ==> rs[i].base == rs'[i].base && |rs[i].data| == |rs'[i].data|
  }

  lemma SameShapeDisjoint(rs: seq<Region>, rs': seq<Region>)
    requires SameShape(rs, rs') && Disjoint(rs)
    ensures Disjoint(rs')
  {
    forall j, k | 0 <= j < k < |rs'| ensures Apart(rs'[j], rs'[k]) { assert Apart(rs[j], rs[k]); }
  }

  lemma StoredDomain(rs: seq<Region>, rs': seq<Region>, i: nat, a: nat, bs: seq<byte>, k: nat)
    requires SameShape(rs, rs') && i < |rs| && Covers(rs[i], a, |bs|)
    ensures k in Flat(rs') <==> k in Store(Flat(rs), a, bs)
  {
    hide Flat;
    SameMapping(rs, rs', k);
    FlatDomain(rs, k);
    FlatDomain(rs', k);
    if k in Range(a, |bs|) { assert Covers(rs[i], k, 1); }
  }

  lemma StoredAt(rs: seq<Region>, rs': seq<Region>, i: nat, a: nat, bs: seq<byte>, k: nat)
    requires SameShape(rs, rs') && Disjoint(rs) && Disjoint(rs') && i < |rs| && Covers(rs[i], a, |bs|)
    requires rs' == rs[i := Region(rs[i].base, Splice(rs[i].data, a - rs[i].base, bs))]
    requires k in Flat(rs') && k in Store(Flat(rs), a, bs)
    ensures Flat(rs')[k] == Store(Flat(rs), a, bs)[k]
  {
    hide Flat, Splice, Disjoint, Store, Range, Apart;
    StoreAt(Flat(rs), a, bs, k);
    FlatDomain(rs', k);
    var j :| 0 <= j < |rs'| && Covers(rs'[j], k, 1);
    FlatAt(rs', j, k);
    FlatAt(rs, j, k);
    if j == i { SplicedAt(rs[i], a, bs, k); } else { Outside(rs, i, j, a, |bs|, k); }
  }

  lemma SplicedAt(r: Region, a: nat, bs: seq<byte>, k: nat)
    requires Covers(r, a, |bs|) && Covers(r, k, 1)
    ensures Splice(r.data, a - r.base, bs)[k - r.base] ==
      if a <= k < a + |bs| then bs[k - a] else r.data[k - r.base]
  {
    hide Splice;
  }

  lemma Outside(rs: seq<Region>, i: nat, j: nat, a: nat, n: nat, k: nat)
    requires Disjoint(rs) && i < |rs| && j < |rs| && i != j && Covers(rs[i], a, n) && Covers(rs[j], k, 1)
    ensures !(a <= k < a + n)
  {
    hide Disjoint;
    ApartPair(rs, i, j);
  }

  lemma ApartPair(rs: seq<Region>, i: nat, j: nat)
    requires Disjoint(rs) && i < |rs| && j < |rs| && i != j
    ensures Apart(rs[i], rs[j])
  {
    if i < j { assert Apart(rs[i], rs[j]); } else { assert Apart(rs[j], rs[i]); }
  }

  lemma SameMapping(rs: seq<Region>, rs': seq<Region>, k: nat)
    requires SameShape(rs, rs')
    ensures Mapped(rs, k) <==> Mapped(rs', k)
  {
    if Mapped(rs, k) { var i :| 0 <= i < |rs| && Covers(rs[i], k, 1); assert Covers(rs'[i], k, 1); }
    if Mapped(rs', k) { var i :| 0 <= i < |rs| && Covers(rs'[i], k, 1); assert Covers(rs[i], k, 1); }
  }

  lemma LoadAfterStore(m: map<nat, byte>, a: nat, bs: seq<byte>)
    ensures Present(Store(m, a, bs), a, |bs|) && Load(Store(m, a, bs), a, |bs|) == bs
  {}

  // ---------------------------------------------------------- little endian

  function LittleEndian(bs: seq<byte>): nat {
    if bs == [] then 0 else bs[0] + 256 * LittleEndian(bs[1..])
  }

  function Power(n: nat): (p: nat)
    ensures p > 0
  {
    if n == 0 then 1 else 256 * Power(n - 1)
  }

  /** The low `n` bytes of a value, least significant first. */
  function BytesOf(v: nat, n: nat): (bs: seq<byte>)
    ensures |bs| == n
  {
    if n == 0 then [] else [v % 256] + BytesOf(v / 256, n - 1)
  }

  lemma {:induction false} ValueOfBytes(v: nat, n: nat)
    requires v < Power(n)
    ensures LittleEndian(BytesOf(v, n)) == v
  {
    if n > 0 {
      ValueOfBytes(v / 256, n - 1);
      assert BytesOf(v, n)[1..] == BytesOf(v / 256, n - 1);
    }
  }

  lemma {:induction false} BytesOfValue(bs: seq<byte>)
    ensures LittleEndian(bs) < Power(|bs|) && BytesOf(LittleEndian(bs), |bs|) == bs
  {
    if bs != [] {
      BytesOfValue(bs[1..]);
      var v := LittleEndian(bs);
      assert v % 256 == bs[0] && v / 256 == LittleEndian(bs[1..]);
      assert bs == [bs[0]] + bs[1..];
    }
  }

  /** The byte a shift-and-truncate loop writes at place `j`. */
  lemma {:induction false} ByteAt(v: nat, n: nat, j: nat)
    requires j < n
    ensures BytesOf(v, n)[j] == v / Power(j) % 256
  {
    if j > 0 {
      ByteAt(v / 256, n - 1, j - 1);
      DivideTwice(v, Power(j - 1));
    }
  }

  lemma DivideTwice(v: nat, p: nat)
    requires p > 0
    ensures v / 256 / p == v / (256 * p)
  {
    var q := v / 256 / p;
    var r := v / 256 % p;
    assert v == 256 * (v / 256) + v % 256;
    assert v / 256 == p * q + r;
    assert v == (256 * p) * q + (256 * r + v % 256);
    assert 256 * r + v % 256 < 256 * p;
    Quotient(v, 256 * p, q, 256 * r + v % 256);
  }

  lemma Quotient(v: nat, d: nat, q: nat, r: nat)
    requires v == d * q + r && r < d
    ensures v / d == q
  {
    var q' := v / d;
    assert v == d * q' + v % d;
    var e: int, n: int := q' - q, d;
    assert n * e == r - v % d;
    assert e >= 1 ==> n * e >= n;
    assert e <= -1 ==> n * e <= -n;
  }

  /** One more byte at the significant end. */
  lemma {:induction false} LittleEndianSnoc(bs: seq<byte>, b: byte)
    ensures LittleEndian(bs + [b]) == LittleEndian(bs) + b * Power(|bs|)
  {
    if bs == [] {
      assert (bs + [b])[1..] == [];
    } else {
      assert (bs + [b])[1..] == bs[1..] + [b];
      LittleEndianSnoc(bs[1..], b);
      var p := Power(|bs[1..]|);
      assert 256 * (b * p) == b * (256 * p);
    }
  }

  /** One access of the flat space: a little-endian read that changes nothing, or a write of just those bytes. */
  ghost predicate Effect(before: seq<Region>, after: seq<Region>, a: nat, size: nat, value: nat, write: bool,
                         out: nat) {
    && Present(Flat(before), a, size)
    && (!write ==> out == LittleEndian(Load(Flat(before), a, size)) && after == before)
    && (write ==> Flat(after) == Store(Flat(before), a, BytesOf(value, size)))
  }
}
