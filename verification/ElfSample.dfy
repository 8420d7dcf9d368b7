/** ELF records written field by field, and a small file that shows what the validator does not exclude. */
module ElfSample {
  import opened Collections
  import opened FlatMemory
  import opened ElfTls

  // ------------------------------------------------------------------ encoding

  /** A field of a record: its value and its width in bytes. */
  datatype Cell = Cell(value: nat, width: nat)

  function Encode(cs: seq<Cell>): seq<byte> {
    if cs == [] then [] else Encode(cs[..|cs| - 1]) + BytesOf(cs[|cs| - 1].value, cs[|cs| - 1].width)
  }

  /** Where field `i` starts. */
  function Offset(cs: seq<Cell>, i: nat): nat
    requires i <= |cs|
  {
    if i == 0 then 0 else Offset(cs, i - 1) + cs[i - 1].width
  }

  predicate Narrow(cs: seq<Cell>) {
    forall i :: 0 <= i < |cs| ==> cs[i].value < Power(cs[i].width)
  }

  lemma {:induction false} PrefixLength(cs: seq<Cell>, i: nat)
    requires i <= |cs|
    ensures |Encode(cs[..i])| == Offset(cs, i)
  {
    if i > 0 {
      PrefixLength(cs, i - 1);
      assert cs[..i][..i - 1] == cs[..i - 1];
    }
  }

  lemma {:induction false} EncodeSplits(cs: seq<Cell>, i: nat) returns (rest: seq<byte>)
    requires i < |cs|
    ensures Encode(cs) == Encode(cs[..i]) + BytesOf(cs[i].value, cs[i].width) + rest
  {
    var init, last := cs[..|cs| - 1], cs[|cs| - 1];
    if i == |init| {
      rest := [];
    } else {
      rest := EncodeSplits(init, i);
      assert init[..i] == cs[..i];
      rest := rest + BytesOf(last.value, last.width);
    }
  }

  /** Reading a field of a written record gives the value back, wherever the record stands. */
  lemma FieldBack(pre: seq<byte>, cs: seq<Cell>, post: seq<byte>, i: nat)
    requires Narrow(cs) && i < |cs|
    ensures |pre| + Offset(cs, i) + cs[i].width <= |pre + Encode(cs) + post|
    ensures Field(pre + Encode(cs) + post, |pre| + Offset(cs, i), cs[i].width) == cs[i].value
  {
    hide Encode, Offset, BytesOf, LittleEndian, Power;
    var c := cs[i];
    PrefixLength(cs, i);
    var rest := EncodeSplits(cs, i);
    var file, at := pre + Encode(cs) + post, |pre| + Offset(cs, i);
    assert file == (pre + Encode(cs[..i])) + BytesOf(c.value, c.width) + (rest + post);
    assert file[at..at + c.width] == BytesOf(c.value, c.width);
    ValueOfBytes(c.value, c.width);
  }

  lemma OffsetStep(cs: seq<Cell>, i: nat)
    requires i < |cs|
    ensures Offset(cs, i + 1) == Offset(cs, i) + cs[i].width
  {}

  lemma OffsetZero(cs: seq<Cell>)
    ensures Offset(cs, 0) == 0
  {}

  // -------------------------------------------------------------------- records

  function ProgramCells(p: Program): seq<Cell> {
    [Cell(p.kind, 4), Cell(0, 4), Cell(p.offset, 8), Cell(p.vaddr, 8),
     Cell(0, 8), Cell(p.filesz, 8), Cell(p.memsz, 8), Cell(p.align, 8)]
  }

  function SectionCells(s: Section): seq<Cell> {
    [Cell(s.name, 4), Cell(s.kind, 4), Cell(s.flags, 8), Cell(s.addr, 8), Cell(s.offset, 8), Cell(s.size, 8),
     Cell(0, 4), Cell(0, 4), Cell(0, 8), Cell(0, 8)]
  }

  /** The header after its 16 identification bytes. */
  function HeaderCells(h: Header): seq<Cell> {
    [Cell(h.kind, 2), Cell(h.machine, 2), Cell(h.version, 4), Cell(h.entry, 8), Cell(h.phoff, 8), Cell(h.shoff, 8),
     Cell(0, 4), Cell(h.ehsize, 2), Cell(h.phentsize, 2), Cell(h.phnum, 2), Cell(h.shentsize, 2), Cell(h.shnum, 2),
     Cell(h.shstrndx, 2)]
  }

  lemma ProgramOffsets(p: Program)
    ensures var cs := ProgramCells(p);
      Offset(cs, 0) == 0 && Offset(cs, 2) == 8 && Offset(cs, 3) == 16 && Offset(cs, 5) == 32 && Offset(cs, 6) == 40
      && Offset(cs, 7) == 48 && Offset(cs, 8) == 56
  {
    hide Offset;
    var cs := ProgramCells(p);
    OffsetZero(cs);
    OffsetStep(cs, 0); OffsetStep(cs, 1); OffsetStep(cs, 2); OffsetStep(cs, 3);
    OffsetStep(cs, 4); OffsetStep(cs, 5); OffsetStep(cs, 6); OffsetStep(cs, 7);
  }

  lemma SectionOffsets(s: Section)
    ensures var cs := SectionCells(s);
      Offset(cs, 0) == 0 && Offset(cs, 1) == 4 && Offset(cs, 2) == 8 && Offset(cs, 3) == 16 && Offset(cs, 4) == 24
      && Offset(cs, 5) == 32 && Offset(cs, 10) == 64
  {
    hide Offset;
    var cs := SectionCells(s);
    OffsetZero(cs);
    OffsetStep(cs, 0); OffsetStep(cs, 1); OffsetStep(cs, 2); OffsetStep(cs, 3); OffsetStep(cs, 4);
    OffsetStep(cs, 5); OffsetStep(cs, 6); OffsetStep(cs, 7); OffsetStep(cs, 8); OffsetStep(cs, 9);
  }

  lemma HeaderOffsets(h: Header)
    ensures var cs := HeaderCells(h);
      Offset(cs, 0) == 0 && Offset(cs, 1) == 2 && Offset(cs, 2) == 4 && Offset(cs, 3) == 8 && Offset(cs, 4) == 16
      && Offset(cs, 5) == 24 && Offset(cs, 7) == 36 && Offset(cs, 8) == 38 && Offset(cs, 9) == 40
      && Offset(cs, 10) == 42
      && Offset(cs, 11) == 44 && Offset(cs, 12) == 46 && Offset(cs, 13) == 48
  {
    hide Offset;
    var cs := HeaderCells(h);
    OffsetZero(cs);
    OffsetStep(cs, 0); OffsetStep(cs, 1); OffsetStep(cs, 2); OffsetStep(cs, 3); OffsetStep(cs, 4); OffsetStep(cs, 5);
    OffsetStep(cs, 6); OffsetStep(cs, 7); OffsetStep(cs, 8); OffsetStep(cs, 9); OffsetStep(cs, 10); OffsetStep(cs, 11);
    OffsetStep(cs, 12);
  }

  lemma RecordLength(cs: seq<Cell>)
    ensures |Encode(cs)| == Offset(cs, |cs|)
  {
    PrefixLength(cs, |cs|);
    assert cs[..|cs|] == cs;
  }

  /** A written program header reads back. */
  lemma ProgramBack(pre: seq<byte>, p: Program, post: seq<byte>)
    requires Narrow(ProgramCells(p))
    ensures var bs := Encode(ProgramCells(p));
      |bs| == 56 && |pre| + 56 <= |pre + bs + post| && ProgramAt(pre + bs + post, |pre|) == p
  {
    hide Encode, Offset, Field, Narrow;
    var cs := ProgramCells(p);
    ProgramOffsets(p);
    RecordLength(cs);
    FieldBack(pre, cs, post, 0);
    FieldBack(pre, cs, post, 2);
    FieldBack(pre, cs, post, 3);
    FieldBack(pre, cs, post, 5);
    FieldBack(pre, cs, post, 6);
    FieldBack(pre, cs, post, 7);
  }

  /** A written section header reads back. */
  lemma SectionBack(pre: seq<byte>, s: Section, post: seq<byte>)
    requires Narrow(SectionCells(s))
    ensures var bs := Encode(SectionCells(s));
      |bs| == 64 && |pre| + 64 <= |pre + bs + post| && SectionAt(pre + bs + post, |pre|) == s
  {
    hide Encode, Offset, Field, Narrow;
    var cs := SectionCells(s);
    SectionOffsets(s);
    RecordLength(cs);
    FieldBack(pre, cs, post, 0);
    FieldBack(pre, cs, post, 1);
    FieldBack(pre, cs, post, 2);
    FieldBack(pre, cs, post, 3);
    FieldBack(pre, cs, post, 4);
    FieldBack(pre, cs, post, 5);
  }

  /** A written file header reads back. */
  lemma HeaderBack(h: Header, post: seq<byte>)
    requires |h.ident| == 16 && Narrow(HeaderCells(h))
    ensures var bs := h.ident + Encode(HeaderCells(h));
      |bs| == 64 && 64 <= |bs + post| && HeaderAt(bs + post) == h
  {
    hide Encode, Offset, Field, Narrow;
    var cs := HeaderCells(h);
    HeaderOffsets(h);
    RecordLength(cs);
    HeaderFields(h, post);
    assert (h.ident + Encode(cs) + post)[..16] == h.ident;
  }

  lemma HeaderFields(h: Header, post: seq<byte>)
    requires |h.ident| == 16 && Narrow(HeaderCells(h))
    ensures var f := h.ident + Encode(HeaderCells(h)) + post;
      && |f| >= 64
      && Field(f, 16, 2) == h.kind && Field(f, 18, 2) == h.machine && Field(f, 20, 4) == h.version
      && Field(f, 24, 8) == h.entry
      && Field(f, 32, 8) == h.phoff && Field(f, 40, 8) == h.shoff && Field(f, 52, 2) == h.ehsize
      && Field(f, 54, 2) == h.phentsize
      && Field(f, 56, 2) == h.phnum && Field(f, 58, 2) == h.shentsize && Field(f, 60, 2) == h.shnum
      && Field(f, 62, 2) == h.shstrndx
  {
    hide Encode, Offset, Field, Narrow;
    var pre, cs := h.ident, HeaderCells(h);
    HeaderOffsets(h);
    RecordLength(cs);
    FieldBack(pre, cs, post, 0); FieldBack(pre, cs, post, 1); FieldBack(pre, cs, post, 2); FieldBack(pre, cs, post, 3);
    FieldBack(pre, cs, post, 4); FieldBack(pre, cs, post, 5); FieldBack(pre, cs, post, 7); FieldBack(pre, cs, post, 8);
    FieldBack(pre, cs, post, 9); FieldBack(pre, cs, post, 10); FieldBack(pre, cs, post, 11);
    FieldBack(pre, cs, post, 12);
  }

  // ------------------------------------------------------------------ a small file

  /** An empty loadable segment, and a TLS segment of one byte: the first of the file. */
  const LOAD := Program(PT_LOAD, 0, 0, 0, 0, 0)
  const TLS := Program(PT_TLS, 0, 0, 1, 1, 1)
  /** A TLS section without file bytes that lies over that byte. */
  const BSS := Section(0, SHT_NOBITS, 0x400, 0, 0, 1)

  function SmallHeader(names: nat): Header {
    Header(MAGIC + Zeros(9), 2, 62, 1, 0, 64, 176, 64, 56, 2, 64, 1, names)
  }

  function SmallFile(names: nat): seq<byte> {
    SmallHeader(names).ident + Encode(HeaderCells(SmallHeader(names)))
    + Encode(ProgramCells(LOAD)) + Encode(ProgramCells(TLS)) + Encode(SectionCells(BSS))
  }

  lemma {:induction false} PowerBig(n: nat)
    requires n >= 2
    ensures Power(n) >= 65536
  {
    if n == 2 {
      assert Power(1) == 256;
    } else {
      PowerBig(n - 1);
    }
  }

  lemma SmallNarrow(cs: seq<Cell>)
    requires forall i :: 0 <= i < |cs| ==> cs[i].value < 65536 && cs[i].width >= 2
    ensures Narrow(cs)
  {
    forall i | 0 <= i < |cs| ensures cs[i].value < Power(cs[i].width) { PowerBig(cs[i].width); }
  }

  lemma SmallPieces(names: nat)
    requires names < 2
    ensures var f := SmallFile(names);
      && |f| == 240 && f[0] == 0x7f && HeaderAt(f) == SmallHeader(names)
      && ProgramAt(f, 64) == LOAD && ProgramAt(f, 120) == TLS && SectionAt(f, 176) == BSS
  {
    hide Encode, Narrow, HeaderAt, ProgramAt, SectionAt;
    var h := SmallHeader(names);
    var a, b := h.ident + Encode(HeaderCells(h)), Encode(ProgramCells(LOAD));
    var c, d := Encode(ProgramCells(TLS)), Encode(SectionCells(BSS));
    var f := SmallFile(names);
    SmallNarrow(HeaderCells(h));
    SmallNarrow(ProgramCells(LOAD));
    SmallNarrow(ProgramCells(TLS));
    SmallNarrow(SectionCells(BSS));
    HeaderBack(h, b + c + d);
    ProgramBack(a, LOAD, c + d);
    ProgramBack(a + b, TLS, d);
    SectionBack(a + b + c, BSS, []);
    assert f == a + (b + c + d) && f == a + b + (c + d) && f == a + b + c + d && f == (a + b + c) + d + [];
    assert f[0] == h.ident[0] == MAGIC[0];
  }

  lemma SmallTables(names: nat)
    requires names < 2
    ensures var f := SmallFile(names);
      && |f| == 240 && HeaderAt(f) == SmallHeader(names)
      && Programs(f, 64, 56, 2) == Some([LOAD, TLS]) && Sections(f, 176, 64, 1) == Some([BSS])
  {
    hide SmallFile, HeaderAt, ProgramAt, SectionAt;
    var f := SmallFile(names);
    SmallPieces(names);
    assert Programs(f, 64, 56, 2).value == [LOAD, TLS];
    assert Sections(f, 176, 64, 1).value == [BSS];
  }

  lemma SmallKinds()
    ensures IsTls(BSS) && Select([BSS], IsTls) == [BSS] && Select([LOAD, TLS], IsTlsProgram) == [TLS]
    ensures And(TLS.align, TLS.align - 1) == 0
  {
    AndSelf(0x400);
    AndZero(1);
    SelectSnoc([LOAD], TLS, IsTlsProgram);
    assert [LOAD] + [TLS] == [LOAD, TLS];
    assert [LOAD][..0] == [] && [BSS][..0] == [];
  }

  /** The file is accepted. */
  lemma SmallAccepted(names: nat)
    requires names < 2
    ensures Inspect(SmallFile(names)) == Accepted(0, TLS, [BSS]) && SectionTable(SmallFile(names)) == [BSS]
    ensures IsTls(BSS)
  {
    hide SmallFile, HeaderAt, Programs, Sections, Select, And, IsTls;
    SmallTables(names);
    SmallKinds();
    assert HeaderOk(SmallHeader(names)) by { SmallHeaderOk(names); }
    assert LOAD in [LOAD, TLS];
  }

  lemma SmallHeaderOk(names: nat)
    ensures HeaderOk(SmallHeader(names))
  {
    assert (MAGIC + Zeros(9))[..7] == MAGIC;
  }

  /** An accepted file in which a section that should be zero is not. */
  lemma NobitsNotZero()
    ensures var file := SmallFile(0);
      && Inspect(file) == Accepted(0, TLS, [BSS]) && BSS in SectionTable(file) && IsTls(BSS) && BSS.kind == SHT_NOBITS
      && |file| > 0 && !AllZero(Placed(TlsImage(file, TLS), TLS, BSS))
  {
    hide SmallFile, Inspect, SectionTable, IsTls, HeaderAt, ProgramAt, SectionAt, SmallHeader;
    var file := SmallFile(0);
    SmallAccepted(0);
    SmallPieces(0);
    assert Placed(TlsImage(file, TLS), TLS, BSS)[0] == file[0];
  }

  /** An accepted file on which the link probe fails: its name table index is out of range. */
  lemma AcceptedUnread()
    ensures Inspect(SmallFile(1)).Accepted? && LinkCoverage(SmallFile(1)) == None
  {
    hide SmallFile, Inspect, SectionTable, LinkCoverage, HeaderAt, Programs, Sections, IsTls;
    SmallAccepted(1);
    SmallTables(1);
    AcceptedIsCovered(SmallFile(1));
  }
}
