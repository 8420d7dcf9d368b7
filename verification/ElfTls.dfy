/** The loader-visible TLS contract of a static ELF: header checks against the image a loader builds. */
module ElfTls {
  import opened Collections
  import opened FlatMemory

  // ---------------------------------------------------------------- records

  datatype Header = Header(
    ident: seq<byte>, kind: nat, machine: nat, version: nat, entry: nat, phoff: nat, shoff: nat,
    ehsize: nat, phentsize: nat, phnum: nat, shentsize: nat, shnum: nat, shstrndx: nat)

  datatype Program = Program(kind: nat, offset: nat, vaddr: nat, filesz: nat, memsz: nat, align: nat)

  datatype Section = Section(name: nat, kind: nat, flags: nat, addr: nat, offset: nat, size: nat)

  const PT_LOAD := 1
  const PT_DYNAMIC := 2
  const PT_INTERP := 3
  const PT_TLS := 7
  const SHT_NOBITS := 8
  const TLS_LIMIT: nat := 4096
  const MAGIC: seq<byte> := [0x7f, 0x45, 0x4c, 0x46, 2, 1, 1]

  /** A little-endian field of `n` bytes. */
  function Field(file: seq<byte>, at: nat, n: nat): nat
    requires at + n <= |file|
  {
    LittleEndian(file[at..at + n])
  }

  function HeaderAt(file: seq<byte>): Header
    requires 64 <= |file|
  {
    Header(file[..16], Field(file, 16, 2), Field(file, 18, 2), Field(file, 20, 4), Field(file, 24, 8),
           Field(file, 32, 8), Field(file, 40, 8), Field(file, 52, 2), Field(file, 54, 2), Field(file, 56, 2),
           Field(file, 58, 2), Field(file, 60, 2), Field(file, 62, 2))
  }

  function ProgramAt(file: seq<byte>, at: nat): Program
    requires at + 56 <= |file|
  {
    Program(Field(file, at, 4), Field(file, at + 8, 8), Field(file, at + 16, 8), Field(file, at + 32, 8),
            Field(file, at + 40, 8), Field(file, at + 48, 8))
  }

  function SectionAt(file: seq<byte>, at: nat): Section
    requires at + 64 <= |file|
  {
    Section(Field(file, at, 4), Field(file, at + 4, 4), Field(file, at + 8, 8), Field(file, at + 16, 8),
            Field(file, at + 24, 8), Field(file, at + 32, 8))
  }

  /** `count` records of `size` bytes from `at` on, `stride` apart, all inside the file. */
  predicate Inside(file: seq<byte>, at: nat, stride: nat, size: nat, count: nat) {
    forall i :: 0 <= i < count ==> at + i * stride + size <= |file|
  }

  function Programs(file: seq<byte>, at: nat, stride: nat, count: nat): Option<seq<Program>> {
    if Inside(file, at, stride, 56, count)
    then
      Some(seq(count, i requires 0 <= i < count =>
        assert at + i * stride + 56 <= |file|; ProgramAt(file, at + i * stride)))
    else None
  }

  function Sections(file: seq<byte>, at: nat, stride: nat, count: nat): Option<seq<Section>> {
    if Inside(file, at, stride, 64, count)
    then
      Some(seq(count, i requires 0 <= i < count =>
        assert at + i * stride + 64 <= |file|; SectionAt(file, at + i * stride)))
    else None
  }

  // ------------------------------------------------------------------- bits

  /** Bitwise and of two non-negative integers. */
  function And(a: nat, b: nat): nat
    decreases a
  {
    if a == 0 then 0 else 2 * And(a / 2, b / 2) + if a % 2 == 1 && b % 2 == 1 then 1 else 0
  }

  function Exp2(k: nat): (p: nat)
    ensures p > 0
  {
    if k == 0 then 1 else 2 * Exp2(k - 1)
  }

  lemma {:induction false} AndZero(a: nat)
    ensures And(a, 0) == 0
    decreases a
  {
    if a > 0 { AndZero(a / 2); }
  }

  lemma {:induction false} AndSelf(a: nat)
    ensures And(a, a) == a
  {
    if a > 0 { AndSelf(a / 2); }
  }

  lemma {:induction false} PowerHasOneBit(k: nat)
    ensures And(Exp2(k), Exp2(k) - 1) == 0
  {
    if k > 0 {
      hide And;
      PowerHasOneBit(k - 1);
      AndDouble(Exp2(k - 1));
    } else {
      AndZero(1);
    }
  }

  lemma AndDouble(h: nat)
    requires h > 0
    ensures And(2 * h, 2 * h - 1) == 2 * And(h, h - 1)
  {
    var a := 2 * h;
    assert a / 2 == h && (a - 1) / 2 == h - 1 && a % 2 == 0;
  }

  lemma {:induction false} OneBitIsPower(a: nat) returns (k: nat)
    requires a > 0 && And(a, a - 1) == 0
    ensures a == Exp2(k)
  {
    if a == 1 { return 0; }
    var h := a / 2;
    if a % 2 == 1 {
      assert (a - 1) / 2 == h;
      AndSelf(h);
      assert false;
    } else {
      assert (a - 1) / 2 == h - 1;
      k := OneBitIsPower(h);
      k := k + 1;
    }
  }

  /** `a & (a-1)` is zero exactly for powers of two. */
  lemma PowerOfTwo(a: nat)
    requires a > 0
    ensures And(a, a - 1) == 0 <==> exists k: nat :: a == Exp2(k)
  {
    if And(a, a - 1) == 0 {
      var k := OneBitIsPower(a);
    }
    if k: nat :| a == Exp2(k) { PowerHasOneBit(k); }
  }

  lemma {:induction false} ExponentBound(k: nat, n: nat)
    requires Exp2(k) <= Exp2(n)
    ensures k <= n
  {
    if k > 0 && n > 0 { ExponentBound(k - 1, n - 1); }
  }

  // -------------------------------------------------------------- inspection

  predicate IsTls(s: Section) { And(s.flags, 0x400) != 0 && s.size != 0 }

  predicate IsTlsProgram(p: Program) { p.kind == PT_TLS }

  predicate IsLoad(p: Program) { p.kind == PT_LOAD }

  predicate HeaderOk(h: Header) {
    && |h.ident| == 16 && h.ident[..7] == MAGIC && h.kind == 2 && h.machine == 62 && h.version == 1
    && h.ehsize == 64 && h.phentsize == 56 && 0 < h.phnum <= 1024
    && h.shentsize == 64 && 0 < h.shnum <= 65535
  }

  predicate LoadsOk(size: nat, programs: seq<Program>) {
    && (forall p <- programs :: p.kind != PT_DYNAMIC && p.kind != PT_INTERP)
    && (exists p <- programs :: IsLoad(p))
    && (forall p <- programs :: IsLoad(p) ==> p.filesz <= p.memsz && p.offset + p.filesz <= size)
  }

  predicate SegmentOk(size: nat, tls: Program) {
    && 0 < tls.memsz <= TLS_LIMIT && tls.filesz <= tls.memsz && tls.offset + tls.filesz <= size
    && 0 < tls.align <= TLS_LIMIT && And(tls.align, tls.align - 1) == 0
  }

  predicate SectionOk(tls: Program, s: Section) {
    var delta := s.addr - tls.vaddr;
    && delta >= 0 && delta + s.size <= tls.memsz
    && (s.kind != SHT_NOBITS ==> delta + s.size <= tls.filesz && s.offset == tls.offset + delta)
  }

  datatype Verdict = Refused | Accepted(entry: nat, tls: Program, sections: seq<Section>)

  /** `inspect_target_elf`. */
  function Inspect(file: seq<byte>): Verdict {
    if |file| < 64 || !HeaderOk(HeaderAt(file)) then Refused else
    var h := HeaderAt(file);
    var programs, sections := Programs(file, h.phoff, 56, h.phnum), Sections(file, h.shoff, 64, h.shnum);
    if programs.None? || sections.None? || !LoadsOk(|file|, programs.value) then Refused else
    var tlsSections, tlsPrograms := Select(sections.value, IsTls), Select(programs.value, IsTlsProgram);
    if tlsSections == [] || |tlsPrograms| != 1 then Refused else
    var tls := tlsPrograms[0];
    if SegmentOk(|file|, tls) && forall s <- tlsSections :: SectionOk(tls, s)
    then Accepted(h.entry, tls, tlsSections) else Refused
  }

  /** The section headers of a file, none if they are not all there. */
  function SectionTable(file: seq<byte>): seq<Section> {
    if |file| < 64 then [] else
    var sections := Sections(file, HeaderAt(file).shoff, 64, HeaderAt(file).shnum);
    if sections.None? then [] else sections.value
  }

  // -------------------------------------------------------------- the loader

  function Zeros(n: nat): (z: seq<byte>)
    ensures |z| == n && forall i :: 0 <= i < n ==> z[i] == 0
  {
    seq(n, _ => 0)
  }

  /** The image of one thread: the segment's file bytes, then zeros up to its memory size. */
  function TlsImage(file: seq<byte>, tls: Program): seq<byte>
    requires tls.filesz <= tls.memsz && tls.offset + tls.filesz <= |file|
  {
    file[tls.offset..tls.offset + tls.filesz] + Zeros(tls.memsz - tls.filesz)
  }

  /** The part of the image that a section occupies. */
  function Placed(image: seq<byte>, tls: Program, s: Section): seq<byte>
    requires tls.vaddr <= s.addr && s.addr - tls.vaddr + s.size <= |image|
  {
    image[s.addr - tls.vaddr..s.addr - tls.vaddr + s.size]
  }

  lemma AcceptedSection(file: seq<byte>, s: Section)
    requires Inspect(file).Accepted? && s in SectionTable(file) && IsTls(s)
    ensures SectionOk(Inspect(file).tls, s)
  {
    hide HeaderOk, LoadsOk, Programs, Sections, IsTls, SegmentOk, Select;
    Selected(SectionTable(file), IsTls);
  }

  /** In an accepted file every non-empty TLS section finds its own bytes in the image, which fits the kernel limit. */
  lemma AcceptedImage(file: seq<byte>)
    requires Inspect(file).Accepted?
    ensures var tls := Inspect(file).tls;
      && tls.filesz <= tls.memsz && tls.offset + tls.filesz <= |file|
      && |TlsImage(file, tls)| == tls.memsz <= TLS_LIMIT
      && (exists k: nat :: k <= 12 && tls.align == Exp2(k))
      && forall s <- SectionTable(file) :: IsTls(s) ==>
           && tls.vaddr <= s.addr && s.addr - tls.vaddr + s.size <= tls.memsz
           && (s.kind != SHT_NOBITS ==>
                s.offset + s.size <= |file| && Placed(TlsImage(file, tls), tls, s) == file[s.offset..s.offset + s.size])
  {
    hide HeaderOk, LoadsOk, Programs, Sections, IsTls;
    var tls := Inspect(file).tls;
    AlignmentIsPower(tls.align);
    forall s <- SectionTable(file) | IsTls(s)
      ensures SectionOk(tls, s)
      ensures s.kind != SHT_NOBITS ==>
        s.offset + s.size <= |file| && Placed(TlsImage(file, tls), tls, s) == file[s.offset..s.offset + s.size]
    {
      AcceptedSection(file, s);
      if s.kind != SHT_NOBITS { InitialisedBytes(file, tls, s); }
    }
  }

  lemma AlignmentIsPower(a: nat)
    requires 0 < a <= TLS_LIMIT && And(a, a - 1) == 0
    ensures exists k: nat :: k <= 12 && a == Exp2(k)
  {
    PowerOfTwo(a);
    var k: nat :| a == Exp2(k);
    assert Exp2(12) == 4096;
    ExponentBound(k, 12);
  }

  lemma InitialisedBytes(file: seq<byte>, tls: Program, s: Section)
    requires SectionOk(tls, s) && s.kind != SHT_NOBITS && tls.filesz <= tls.memsz && tls.offset + tls.filesz <= |file|
    ensures s.offset + s.size <= |file|
    ensures Placed(TlsImage(file, tls), tls, s) == file[s.offset..s.offset + s.size]
  {
    forall i | 0 <= i < s.size
      ensures Placed(TlsImage(file, tls), tls, s)[i] == file[s.offset + i]
    {
      PlacedAt(file, tls, s, i);
    }
  }

  lemma PlacedAt(file: seq<byte>, tls: Program, s: Section, i: nat)
    requires SectionOk(tls, s) && tls.filesz <= tls.memsz && tls.offset + tls.filesz <= |file| && i < s.size
    ensures var at := s.addr - tls.vaddr + i;
      Placed(TlsImage(file, tls), tls, s)[i] == if at < tls.filesz then file[tls.offset + at] else 0
  {
    var image, at := TlsImage(file, tls), s.addr - tls.vaddr + i;
    assert Placed(image, tls, s)[i] == image[at];
  }

  predicate AllZero(bs: seq<byte>) { forall i :: 0 <= i < |bs| ==> bs[i] == 0 }

  /** The initialised bytes that a section lies over. */
  predicate OverlapZero(file: seq<byte>, tls: Program, s: Section)
    requires tls.vaddr <= s.addr && tls.offset + tls.filesz <= |file|
  {
    var from := tls.offset + (s.addr - tls.vaddr);
    forall k :: from <= k < tls.offset + tls.filesz && k < from + s.size ==> file[k] == 0
  }

  lemma ZeroExact(file: seq<byte>, tls: Program, s: Section)
    requires SectionOk(tls, s) && tls.filesz <= tls.memsz && tls.offset + tls.filesz <= |file|
    ensures AllZero(Placed(TlsImage(file, tls), tls, s)) <==> OverlapZero(file, tls, s)
  {
    var image, d := TlsImage(file, tls), s.addr - tls.vaddr;
    var part := Placed(image, tls, s);
    forall i | 0 <= i < s.size
      ensures part[i] == if d + i < tls.filesz then file[tls.offset + d + i] else 0
    {
      PlacedAt(file, tls, s, i);
    }
    if AllZero(part) {
      forall k | tls.offset + d <= k < tls.offset + tls.filesz && k < tls.offset + d + s.size ensures file[k] == 0 {
        assert part[k - tls.offset - d] == 0;
      }
    }
  }

  /**
   * In an accepted file a TLS section without file bytes is zero in the image exactly when the initialised
   * bytes it lies over are; the checks do not keep it clear of the initialised part.
   */
  lemma NobitsZero(file: seq<byte>, s: Section)
    requires Inspect(file).Accepted? && s in SectionTable(file) && IsTls(s) && s.kind == SHT_NOBITS
    ensures var tls := Inspect(file).tls;
      && tls.filesz <= tls.memsz && tls.offset + tls.filesz <= |file|
      && tls.vaddr <= s.addr && s.addr - tls.vaddr + s.size <= tls.memsz
      && (AllZero(Placed(TlsImage(file, tls), tls, s)) <==> OverlapZero(file, tls, s))
  {
    hide HeaderOk, LoadsOk, Programs, Sections, IsTls, Select, AllZero, OverlapZero, SectionTable;
    AcceptedSection(file, s);
    ZeroExact(file, Inspect(file).tls, s);
  }

  /**
   * From the headers alone: such a section is zero whatever the file holds exactly when it starts after the
   * initialised part.
   */
  lemma NobitsClear(tls: Program, s: Section, size: nat)
    requires SectionOk(tls, s) && s.size > 0 && tls.filesz <= tls.memsz && tls.offset + tls.filesz <= size
    ensures (forall file: seq<byte> :: |file| == size ==> AllZero(Placed(TlsImage(file, tls), tls, s))) <==>
      s.addr - tls.vaddr >= tls.filesz
  {
    forall file: seq<byte> | |file| == size
      ensures AllZero(Placed(TlsImage(file, tls), tls, s)) <==> OverlapZero(file, tls, s)
    {
      ZeroExact(file, tls, s);
    }
    var ones: seq<byte> := seq(size, _ => 1);
    assert |ones| == size;
    if s.addr - tls.vaddr < tls.filesz { assert ones[tls.offset + (s.addr - tls.vaddr)] == 1; }
  }

  // ------------------------------------------------------- the link-time probe

  /** The probe's own coverage test for one section. */
  predicate CoveredBy(tls: Program, s: Section) {
    && tls.vaddr <= s.addr && s.addr + s.size <= tls.vaddr + tls.memsz
    && (s.kind == SHT_NOBITS || s.addr + s.size <= tls.vaddr + tls.filesz)
  }

  /** The TLS program headers; of the others the probe reads no more than the type. */
  function TlsPrograms(file: seq<byte>, at: nat, stride: nat, count: nat): Option<seq<Program>> {
    if count == 0 then Some([]) else
    var before, here := TlsPrograms(file, at, stride, count - 1), at + (count - 1) * stride;
    if before.None? || here + 4 > |file| then None
    else if Field(file, here, 4) != PT_TLS then before
    else if here + 56 > |file| then None
    else Some(before.value + [ProgramAt(file, here)])
  }

  // Section names: the probe decodes them all, and fails on one that is not UTF-8.

  predicate Tail(b: byte) { 0x80 <= b <= 0xbf }

  /** Well-formed UTF-8 (table 3-7 of the Unicode Standard 15.0). */
  predicate Utf8(bs: seq<byte>) {
    if bs == [] then true
    else if bs[0] < 0x80 then Utf8(bs[1..])
    else if |bs| >= 2 && 0xc2 <= bs[0] <= 0xdf then Tail(bs[1]) && Utf8(bs[2..])
    else if |bs| >= 3 && 0xe0 <= bs[0] <= 0xef then
      && (bs[0] == 0xe0 ==> bs[1] >= 0xa0) && (bs[0] == 0xed ==> bs[1] <= 0x9f)
      && Tail(bs[1]) && Tail(bs[2]) && Utf8(bs[3..])
    else if |bs| >= 4 && 0xf0 <= bs[0] <= 0xf4 then
      && (bs[0] == 0xf0 ==> bs[1] >= 0x90) && (bs[0] == 0xf4 ==> bs[1] <= 0x8f)
      && Tail(bs[1]) && Tail(bs[2]) && Tail(bs[3]) && Utf8(bs[4..])
    else false
  }

  /** `bs[from:to]`, which never fails. */
  function Slice(bs: seq<byte>, from: nat, to: nat): seq<byte> {
    var z := if to < |bs| then to else |bs|;
    if from < z then bs[from..z] else []
  }

  /** Everything before the first zero byte. */
  function UpToZero(bs: seq<byte>): seq<byte> {
    if bs == [] || bs[0] == 0 then [] else [bs[0]] + UpToZero(bs[1..])
  }

  predicate NameReadable(names: seq<byte>, s: Section) { Utf8(UpToZero(Slice(names, s.name, |names|))) }

  /** The name table exists and every section's name can be decoded. */
  predicate NamesReadable(file: seq<byte>, sections: seq<Section>, index: nat) {
    index < |sections| &&
    var names := Slice(file, sections[index].offset, sections[index].offset + sections[index].size);
    forall s <- sections :: NameReadable(names, s)
  }

  /** `inspect` of the link probe: the `covered` flag, or none when it fails. */
  function LinkCoverage(file: seq<byte>): Option<bool> {
    if |file| < 64 || file[..6] != MAGIC[..6] then None else
    var h := HeaderAt(file);
    var sections, tls := Sections(file, h.shoff, h.shentsize, h.shnum),
      TlsPrograms(file, h.phoff, h.phentsize, h.phnum);
    if sections.None? || !NamesReadable(file, sections.value, h.shstrndx) || tls.None? || |tls.value| != 1 then None
    else Some(forall s <- sections.value :: IsTls(s) ==> CoveredBy(tls.value[0], s))
  }

  /** Where all headers are inside the file, both programs find the same TLS headers. */
  lemma {:induction false} SameTlsPrograms(file: seq<byte>, at: nat, stride: nat, count: nat)
    requires Inside(file, at, stride, 56, count)
    ensures TlsPrograms(file, at, stride, count) == Some(Select(Programs(file, at, stride, count).value, IsTlsProgram))
  {
    hide Field, Select;
    if count == 0 {
      var none: seq<Program> := [];
      assert Programs(file, at, stride, 0).value == none;
      NoneSelected(none, IsTlsProgram);
    } else {
      SameTlsPrograms(file, at, stride, count - 1);
      var all, init := Programs(file, at, stride, count).value, Programs(file, at, stride, count - 1).value;
      assert at + (count - 1) * stride + 56 <= |file|;
      var last := ProgramAt(file, at + (count - 1) * stride);
      assert all == init + [last];
      SelectSnoc(init, last, IsTlsProgram);
    }
  }

  method LinkInspect(file: seq<byte>) returns (covered: Option<bool>)
    ensures covered == LinkCoverage(file)
  {
    if |file| < 64 || file[..6] != MAGIC[..6] { return None; }
    var h := HeaderAt(file);
    var sections, tls := Sections(file, h.shoff, h.shentsize, h.shnum),
      TlsPrograms(file, h.phoff, h.phentsize, h.phnum);
    if sections.None? || !NamesReadable(file, sections.value, h.shstrndx) || tls.None? || |tls.value| != 1 {
      return None;
    }
    var parts, i := [], 0;
    while i < |sections.value|
      invariant i <= |sections.value|
      invariant forall s :: s in parts <==> s in sections.value[..i] && IsTls(s)
    {
      var s := sections.value[i];
      assert sections.value[..i + 1] == sections.value[..i] + [s];
      if IsTls(s) { parts := parts + [s]; }
      i := i + 1;
    }
    assert sections.value[..i] == sections.value;
    return Some(forall s <- parts :: CoveredBy(tls.value[0], s));
  }

  lemma InsideOf(file: seq<byte>, at: nat, count: nat)
    requires Programs(file, at, 56, count).Some?
    ensures Inside(file, at, 56, 56, count)
  {}

  /** Whatever the full validator accepts, the probe reports as covered, exactly when it can read the section names. */
  lemma AcceptedIsCovered(file: seq<byte>)
    requires Inspect(file).Accepted?
    ensures LinkCoverage(file) ==
      if NamesReadable(file, SectionTable(file), HeaderAt(file).shstrndx) then Some(true) else None
  {
    hide LoadsOk, Programs, Sections, IsTls, SegmentOk, NamesReadable;
    var h := HeaderAt(file);
    assert file[..6] == h.ident[..7][..6];
    var tls := Inspect(file).tls;
    assert Inside(file, h.phoff, 56, 56, h.phnum) by {
      assert Programs(file, h.phoff, 56, h.phnum).Some?;
      InsideOf(file, h.phoff, h.phnum);
    }
    SameTlsPrograms(file, h.phoff, 56, h.phnum);
    forall s <- SectionTable(file) | IsTls(s) ensures CoveredBy(tls, s) { AcceptedSection(file, s); }
  }
}
