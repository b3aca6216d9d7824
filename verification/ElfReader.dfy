/** A reader of ELF64 relocatable objects, after chapter 4 of the System V gABI, and the proof that it gets back what
    the writer was given. */
module ElfReader {
  import opened Wrappers
  import opened Bytes
  import opened ElfSymbols
  import opened ElfLayout

  /** A symbol table entry with its name looked up. */
  datatype Entry = Entry(name: seq<byte>, value: nat, size: nat, shndx: nat, bind: nat, typ: nat, other: nat)

  /** A relocation; `sym` is a place in the symbol table. */
  datatype Relocation = Relocation(offset: nat, sym: nat, typ: nat, addend: int)

  /** The file header, field by field. */
  datatype FileHead = FileHead(ident: seq<byte>, typ: nat, machine: nat, version: nat, entry: nat, phoff: nat,
                               shoff: nat, flags: nat, ehsize: nat, phentsize: nat, phnum: nat, shentsize: nat,
                               shnum: nat, shstrndx: nat)

  /** A section header with its name looked up. */
  datatype View = View(name: seq<byte>, typ: nat, flags: nat, addr: nat, offset: nat, size: nat, link: nat, info: nat,
                       align: nat, entsize: nat)

  /** `text` and `data` are the contents of these sections, `firstGlobal` is `sh_info` of the symbol table. */
  datatype Object = Object(head: FileHead, sections: seq<View>, text: seq<byte>, data: seq<byte>, bssSize: nat,
                           symbols: seq<Entry>, firstGlobal: nat, relocs: seq<Relocation>)

  const PROGBITS := 1
  const SYMBOLS := 2
  const STRINGS := 3
  const RELA := 4
  const NOBITS := 8

  // ---------------------------------------------------------------- the reader

  /** A name as it is spelled, for characters below 128. */
  function Ascii(s: string): (b: seq<byte>)
    requires forall i :: 0 <= i < |s| ==> s[i] as int < 128
  {
    seq(|s|, i requires 0 <= i < |s| => s[i] as int)
  }

  function ReadHead(file: seq<byte>): FileHead
    requires 64 <= |file|
  {
    FileHead(file[..16], Field(file, 16, 2), Field(file, 18, 2), Field(file, 20, 4), Field(file, 24, 8),
             Field(file, 32, 8), Field(file, 40, 8), Field(file, 48, 4), Field(file, 52, 2), Field(file, 54, 2),
             Field(file, 56, 2), Field(file, 58, 2), Field(file, 60, 2), Field(file, 62, 2))
  }

  /** A little-endian 64-bit relocatable object of version 1, with headers of the sizes the gABI gives and a section
      of names. */
  predicate IsRelocatable(h: FileHead) {
    && |h.ident| == 16 && h.ident[0] == 0x7f && h.ident[1..4] == Ascii("ELF") && h.ident[4..7] == [2, 1, 1]
    && h.typ == 1 && h.version == 1 && h.ehsize == 64 && h.shentsize == 64 && h.shstrndx < h.shnum
  }

  predicate IsNull(h: SectionHeader) {
    h == SectionHeader(0, 0, 0, 0, 0, 0, 0, 0, 0, 0)
  }

  function ReadHeader(file: seq<byte>, at: nat): SectionHeader
    requires at + 64 <= |file|
  {
    SectionHeader(Field(file, at, 4), Field(file, at + 4, 4), Field(file, at + 8, 8), Field(file, at + 16, 8),
                  Field(file, at + 24, 8), Field(file, at + 32, 8), Field(file, at + 40, 4), Field(file, at + 44, 4),
                  Field(file, at + 48, 8), Field(file, at + 56, 8))
  }

  function ReadHeaders(file: seq<byte>, at: nat, n: nat): (h: seq<SectionHeader>)
    requires at + 64 * n <= |file|
    ensures |h| == n
  {
    if n == 0 then [] else ReadHeaders(file, at, n - 1) + [ReadHeader(file, at + 64 * (n - 1))]
  }

  /** The bytes up to the next zero. */
  function CString(table: seq<byte>, from: nat): seq<byte>
    decreases |table| - from
  {
    if from >= |table| || table[from] == 0 then [] else [table[from]] + CString(table, from + 1)
  }

  function Slice(file: seq<byte>, offset: nat, size: nat): Option<seq<byte>> {
    if offset + size <= |file| then Some(file[offset..offset + size]) else None
  }

  /** The index of the first section of a name. */
  function FindName(h: seq<SectionHeader>, names: seq<byte>, name: seq<byte>, i: nat): (r: Option<nat>)
    ensures r.Some? ==> r.value < |h|
    decreases |h| - i
  {
    if i >= |h| then None
    else if CString(names, h[i].name) == name then Some(i)
    else FindName(h, names, name, i + 1)
  }

  /** The first relocation section that applies to section `target`. */
  function FindRela(h: seq<SectionHeader>, target: nat, i: nat): (r: Option<nat>)
    ensures r.Some? ==> r.value < |h|
    decreases |h| - i
  {
    if i >= |h| then None
    else if h[i].typ == RELA && h[i].info == target then Some(i)
    else FindRela(h, target, i + 1)
  }

  function ReadEntry(table: seq<byte>, at: nat, strings: seq<byte>): Entry
    requires at + 24 <= |table|
  {
    Entry(CString(strings, Field(table, at, 4)), Field(table, at + 8, 8), Field(table, at + 16, 8),
          Field(table, at + 6, 2), Field(table, at + 4, 1) / 16, Field(table, at + 4, 1) % 16, Field(table, at + 5, 1))
  }

  function ReadEntries(table: seq<byte>, strings: seq<byte>, n: nat): (e: seq<Entry>)
    requires 24 * n <= |table|
    ensures |e| == n
  {
    if n == 0 then [] else ReadEntries(table, strings, n - 1) + [ReadEntry(table, 24 * (n - 1), strings)]
  }

  function Signed(u: nat): int {
    if u < WIDTH64 / 2 then u else u - WIDTH64
  }

  function ReadRela(table: seq<byte>, at: nat): Relocation
    requires at + 24 <= |table|
  {
    var info := Field(table, at + 8, 8);
    Relocation(Field(table, at, 8), info / 0x1_0000_0000, info % 0x1_0000_0000, Signed(Field(table, at + 16, 8)))
  }

  function ReadRelas(table: seq<byte>, n: nat): (r: seq<Relocation>)
    requires 24 * n <= |table|
    ensures |r| == n
  {
    if n == 0 then [] else ReadRelas(table, n - 1) + [ReadRela(table, 24 * (n - 1))]
  }

  function ViewOf(h: SectionHeader, names: seq<byte>): View {
    View(CString(names, h.name), h.typ, h.flags, h.addr, h.offset, h.size, h.link, h.info, h.align, h.entsize)
  }

  function Views(h: seq<SectionHeader>, names: seq<byte>): (v: seq<View>)
    ensures |v| == |h|
  {
    seq(|h|, i requires 0 <= i < |h| => ViewOf(h[i], names))
  }

  /** The contents of the sections, each of the type it should have. */
  function ReadContents(file: seq<byte>, head: FileHead, sections: seq<View>, text: SectionHeader, data: SectionHeader,
                        bss: SectionHeader, rela: SectionHeader, symtab: SectionHeader,
                        strtab: SectionHeader): Option<Object> {
    if text.typ != PROGBITS || data.typ != PROGBITS || bss.typ != NOBITS || symtab.typ != SYMBOLS ||
      strtab.typ != STRINGS || symtab.entsize != 24 || rela.entsize != 24
    then None
    else
      match (Slice(file, text.offset, text.size), Slice(file, data.offset, data.size),
             Slice(file, symtab.offset, symtab.size), Slice(file, strtab.offset, strtab.size),
             Slice(file, rela.offset, rela.size))
      case (Some(t), Some(d), Some(s), Some(strings), Some(r)) =>
        Some(Object(head, sections, t, d, bss.size, ReadEntries(s, strings, |s| / 24), symtab.info,
                    ReadRelas(r, |r| / 24)))
      case _ => None
  }

  /** Sections by name; the relocations of `.text` by the section they apply to; their symbol table and its strings by
      the links. */
  function ReadSections(file: seq<byte>, head: FileHead, h: seq<SectionHeader>, names: seq<byte>): Option<Object> {
    match (FindName(h, names, Ascii(".text"), 0), FindName(h, names, Ascii(".data"), 0),
           FindName(h, names, Ascii(".bss"), 0))
    case (Some(text), Some(data), Some(bss)) =>
      (match FindRela(h, text, 0)
       case None => None
       case Some(rela) =>
         var symtab := h[rela].link;
         if symtab >= |h| || h[symtab].link >= |h| then None
         else
           ReadContents(file, head, Views(h, names), h[text], h[data], h[bss], h[rela], h[symtab], h[h[symtab].link]))
    case _ => None
  }

  function Read(file: seq<byte>): Option<Object> {
    if |file| < 64 || !IsRelocatable(ReadHead(file)) then None
    else
      var head := ReadHead(file);
      if head.shoff + 64 * head.shnum > |file| then None
      else
        var h := ReadHeaders(file, head.shoff, head.shnum);
        if !IsNull(h[0]) || h[head.shstrndx].typ != STRINGS then None
        else
          match Slice(file, h[head.shstrndx].offset, h[head.shstrndx].size)
          case None => None
          case Some(names) => ReadSections(file, head, h, names)
  }

  // ---------------------------------------------------------------- records are read back

  lemma Peel(file: seq<byte>, at: nat, a: seq<byte>, v: nat, n: nat)
    requires Holds(file, at, a + PutLE(v, n)) && v < Pow256(n)
    ensures Holds(file, at, a) && at + |a| + n <= |file| && Field(file, at + |a|, n) == v
  {
    HoldsParts(file, at, a, PutLE(v, n));
    HoldsField(file, at + |a|, v, n);
  }

  ghost predicate HeaderFits(h: SectionHeader) {
    && h.name < 0x1_0000_0000 && h.typ < 0x1_0000_0000 && h.flags < WIDTH64 && h.addr < WIDTH64 && h.offset < WIDTH64
    && h.size < WIDTH64 && h.link < 0x1_0000_0000 && h.info < 0x1_0000_0000 && h.align < WIDTH64 && h.entsize < WIDTH64
  }

  lemma HeaderIsRead(file: seq<byte>, at: nat, h: SectionHeader)
    requires Holds(file, at, HeaderBytes(h)) && HeaderFits(h)
    ensures at + 64 <= |file| && ReadHeader(file, at) == h
  {
    Sizes();
    var a1 := PutLE(h.name, 4);
    var a2 := a1 + PutLE(h.typ, 4);
    var a3 := a2 + PutLE(h.flags, 8);
    var a4 := a3 + PutLE(h.addr, 8);
    var a5 := a4 + PutLE(h.offset, 8);
    var a6 := a5 + PutLE(h.size, 8);
    var a7 := a6 + PutLE(h.link, 4);
    var a8 := a7 + PutLE(h.info, 4);
    var a9 := a8 + PutLE(h.align, 8);
    Peel(file, at, a9, h.entsize, 8);
    Peel(file, at, a8, h.align, 8);
    Peel(file, at, a7, h.info, 4);
    Peel(file, at, a6, h.link, 4);
    Peel(file, at, a5, h.size, 8);
    Peel(file, at, a4, h.offset, 8);
    Peel(file, at, a3, h.addr, 8);
    Peel(file, at, a2, h.flags, 8);
    Peel(file, at, a1, h.typ, 4);
    HoldsField(file, at, h.name, 4);
  }

  lemma {:induction false} HeaderHolds(file: seq<byte>, at: nat, h: seq<SectionHeader>, n: nat, k: nat)
    requires k < n <= |h| && Holds(file, at, AllHeaderBytes(h, n))
    ensures Holds(file, at + 64 * k, HeaderBytes(h[k]))
  {
    HoldsParts(file, at, AllHeaderBytes(h, n - 1), HeaderBytes(h[n - 1]));
    if k < n - 1 {
      HeaderHolds(file, at, h, n - 1, k);
    }
  }

  ghost predicate HeaderAt(file: seq<byte>, at: nat, h: seq<SectionHeader>, k: nat)
    requires k < |h|
  {
    at + 64 * k + 64 <= |file| && ReadHeader(file, at + 64 * k) == h[k]
  }

  lemma OneHeader(file: seq<byte>, at: nat, h: seq<SectionHeader>, n: nat, k: nat)
    requires k < n <= |h| && Holds(file, at, AllHeaderBytes(h, n)) && HeaderFits(h[k])
    ensures HeaderAt(file, at, h, k)
  {
    HeaderHolds(file, at, h, n, k);
    HeaderIsRead(file, at + 64 * k, h[k]);
  }

  lemma {:induction false} HeadersAreRead(file: seq<byte>, at: nat, h: seq<SectionHeader>, n: nat)
    requires n <= |h| && at + 64 * n <= |file|
    requires forall k {:trigger HeaderAt(file, at, h, k)} :: 0 <= k < n ==> HeaderAt(file, at, h, k)
    ensures ReadHeaders(file, at, n) == h[..n]
  {
    if n > 0 {
      HeadersAreRead(file, at, h, n - 1);
      assert HeaderAt(file, at, h, n - 1);
      assert h[..n] == h[..n - 1] + [h[n - 1]];
    }
  }

  lemma StartParts(file: seq<byte>, id: seq<byte>, a: seq<byte>, b: seq<byte>, c: seq<byte>, d: seq<byte>, e: seq<byte>,
                   f: seq<byte>)
    requires |id| == 16 && |a| == |b| == 2 && |c| == 4 && |d| == |e| == |f| == 8
    requires Holds(file, 0, id + a + b + c + d + e + f)
    ensures Holds(file, 0, id) && Holds(file, 16, a) && Holds(file, 18, b) && Holds(file, 20, c)
    ensures Holds(file, 24, d) && Holds(file, 32, e) && Holds(file, 40, f)
  {
    HoldsParts(file, 0, id + a + b + c + d + e, f);
    HoldsParts(file, 0, id + a + b + c + d, e);
    HoldsParts(file, 0, id + a + b + c, d);
    HoldsParts(file, 0, id + a + b, c);
    HoldsParts(file, 0, id + a, b);
    HoldsParts(file, 0, id, a);
  }

  lemma EndParts(file: seq<byte>, start: seq<byte>, a: seq<byte>, b: seq<byte>, c: seq<byte>, d: seq<byte>,
                 e: seq<byte>, f: seq<byte>, g: seq<byte>)
    requires |start| == 48 && |a| == 4 && |b| == |c| == |d| == |e| == |f| == |g| == 2
    requires Holds(file, 0, start + a + b + c + d + e + f + g)
    ensures Holds(file, 0, start) && Holds(file, 48, a) && Holds(file, 52, b) && Holds(file, 54, c)
    ensures Holds(file, 56, d) && Holds(file, 58, e) && Holds(file, 60, f) && Holds(file, 62, g)
  {
    HoldsParts(file, 0, start + a + b + c + d + e + f, g);
    HoldsParts(file, 0, start + a + b + c + d + e, f);
    HoldsParts(file, 0, start + a + b + c + d, e);
    HoldsParts(file, 0, start + a + b + c, d);
    HoldsParts(file, 0, start + a + b, c);
    HoldsParts(file, 0, start + a, b);
    HoldsParts(file, 0, start, a);
  }

  lemma IdentIsRead(file: seq<byte>, id: seq<byte>)
    requires Holds(file, 0, id) && |id| == 16
    ensures file[..16] == id
  {
  }

  lemma StartIsRead(file: seq<byte>, machine: nat, shoff: nat)
    requires Holds(file, 0, FileHeaderStart(machine, shoff)) && machine < 0x1_0000 && shoff < WIDTH64
    ensures 48 <= |file| && file[..16] == IDENT && Field(file, 16, 2) == 1 && Field(file, 18, 2) == machine
    ensures Field(file, 20, 4) == 1 && Field(file, 24, 8) == 0 && Field(file, 32, 8) == 0 && Field(file, 40, 8) == shoff
  {
    Sizes();
    StartParts(file, IDENT, PutLE(1, 2), PutLE(machine, 2), PutLE(1, 4), PutLE(0, 8), PutLE(0, 8), PutLE(shoff, 8));
    IdentIsRead(file, IDENT);
    HoldsField(file, 16, 1, 2);
    HoldsField(file, 18, machine, 2);
    HoldsField(file, 20, 1, 4);
    HoldsField(file, 24, 0, 8);
    HoldsField(file, 32, 0, 8);
    HoldsField(file, 40, shoff, 8);
  }

  lemma EndIsRead(file: seq<byte>, start: seq<byte>)
    requires |start| == 48
    requires Holds(file, 0, start + PutLE(0, 4) + PutLE(64, 2) + PutLE(0, 2) + PutLE(0, 2) + PutLE(64, 2) +
                            PutLE(8, 2) + PutLE(4, 2))
    ensures 64 <= |file| && Holds(file, 0, start)
    ensures Field(file, 48, 4) == 0 && Field(file, 52, 2) == 64 && Field(file, 54, 2) == 0 && Field(file, 56, 2) == 0
    ensures Field(file, 58, 2) == 64 && Field(file, 60, 2) == 8 && Field(file, 62, 2) == 4
  {
    Sizes();
    EndParts(file, start, PutLE(0, 4), PutLE(64, 2), PutLE(0, 2), PutLE(0, 2), PutLE(64, 2), PutLE(8, 2), PutLE(4, 2));
    HoldsField(file, 48, 0, 4);
    HoldsField(file, 52, 64, 2);
    HoldsField(file, 54, 0, 2);
    HoldsField(file, 56, 0, 2);
    HoldsField(file, 58, 64, 2);
    HoldsField(file, 60, 8, 2);
    HoldsField(file, 62, 4, 2);
  }

  /** The file header of an object of eight sections, the fifth of them holding the names, without program headers,
      entry and flags. */
  function HeadOf(machine: nat, shoff: nat): FileHead {
    FileHead([0x7f] + Ascii("ELF") + [2, 1, 1, 0, 0, 0, 0, 0, 0, 0, 0, 0], 1, machine, 1, 0, 0, shoff, 0, 64, 0, 0, 64,
             8, 4)
  }

  lemma IdentIsSpelled()
    ensures IDENT == [0x7f] + Ascii("ELF") + [2, 1, 1, 0, 0, 0, 0, 0, 0, 0, 0, 0]
    ensures forall machine, shoff :: IsRelocatable(HeadOf(machine, shoff))
  {
    assert Ascii("ELF") == [69, 76, 70];
    assert IDENT[1..4] == [69, 76, 70] && IDENT[4..7] == [2, 1, 1];
  }

  lemma FileHeaderIsRead(file: seq<byte>, machine: nat, shoff: nat)
    requires Holds(file, 0, FileHeader(machine, shoff)) && machine < 0x1_0000 && shoff < WIDTH64
    ensures 64 <= |file| && ReadHead(file) == HeadOf(machine, shoff) && IsRelocatable(ReadHead(file))
  {
    EndIsRead(file, FileHeaderStart(machine, shoff));
    StartIsRead(file, machine, shoff);
    IdentIsSpelled();
  }

  lemma EntryStart(table: seq<byte>, at: nat, name: nat, info: nat, shndx: nat)
    requires Holds(table, at, PutLE(name, 4) + PutLE(info, 1) + PutLE(0, 1) + PutLE(shndx, 2))
    requires name < 0x1_0000_0000 && info < 0x100 && shndx < 0x1_0000
    ensures at + 8 <= |table| && Field(table, at, 4) == name && Field(table, at + 4, 1) == info &&
            Field(table, at + 5, 1) == 0 && Field(table, at + 6, 2) == shndx
  {
    Sizes();
    var a1 := PutLE(name, 4);
    var a2 := a1 + PutLE(info, 1);
    var a3 := a2 + PutLE(0, 1);
    Peel(table, at, a3, shndx, 2);
    Peel(table, at, a2, 0, 1);
    Peel(table, at, a1, info, 1);
    HoldsField(table, at, name, 4);
  }

  lemma EntryIsRead(table: seq<byte>, at: nat, s: Symbol, strings: seq<byte>)
    requires Holds(table, at, SymbolBytes(s)) && SymbolFits(s) && s.nameOffset < 0x1_0000_0000
    ensures at + 24 <= |table|
    ensures ReadEntry(table, at, strings) ==
            Entry(CString(strings, s.nameOffset), s.value, 0, s.shndx, s.bind, s.typ, 0)
  {
    Sizes();
    var info := s.bind * 16 + s.typ;
    var a4 := PutLE(s.nameOffset, 4) + PutLE(info, 1) + PutLE(0, 1) + PutLE(s.shndx, 2);
    EntryEnd(table, at, a4, s.value);
    EntryStart(table, at, s.nameOffset, info, s.shndx);
    assert info / 16 == s.bind && info % 16 == s.typ;
  }

  lemma EntryEnd(table: seq<byte>, at: nat, a: seq<byte>, value: nat)
    requires Holds(table, at, a + PutLE(value, 8) + PutLE(0, 8)) && value < WIDTH64
    ensures Holds(table, at, a) && at + |a| + 16 <= |table|
    ensures Field(table, at + |a|, 8) == value && Field(table, at + |a| + 8, 8) == 0
  {
    Sizes();
    Peel(table, at, a + PutLE(value, 8), 0, 8);
    Peel(table, at, a, value, 8);
  }

  lemma RelaFields(table: seq<byte>, at: nat, off: nat, info: nat, addend: nat)
    requires Holds(table, at, PutLE(off, 8) + PutLE(info, 8) + PutLE(addend, 8))
    requires off < WIDTH64 && info < WIDTH64 && addend < WIDTH64
    ensures at + 24 <= |table|
    ensures Field(table, at, 8) == off && Field(table, at + 8, 8) == info && Field(table, at + 16, 8) == addend
  {
    Sizes();
    var a1 := PutLE(off, 8);
    Peel(table, at, a1 + PutLE(info, 8), addend, 8);
    Peel(table, at, a1, info, 8);
    HoldsField(table, at, off, 8);
  }

  lemma InfoParts(sym: nat, typ: nat)
    requires sym < 0x1_0000_0000 && typ < 0x1_0000_0000
    ensures var info := sym * 0x1_0000_0000 + typ;
      info < WIDTH64 && info / 0x1_0000_0000 == sym && info % 0x1_0000_0000 == typ
  {
  }

  lemma RelaIsRead(table: seq<byte>, at: nat, r: Reloc, sym: nat)
    requires Holds(table, at, RelaBytes(r, sym)) && sym < 0x1_0000_0000 && RelocFits(r, r.sym + 1)
    ensures at + 24 <= |table| && ReadRela(table, at) == Relocation(r.off, sym, r.typ, r.addend)
  {
    InfoParts(sym, r.typ);
    RelaFields(table, at, r.off, sym * 0x1_0000_0000 + r.typ, Unsigned(r.addend));
  }

  // ---------------------------------------------------------------- strings are read back

  lemma {:induction false} CStringIs(table: seq<byte>, from: nat, name: seq<byte>)
    requires Holds(table, from, name + [0]) && 0 !in name
    ensures CString(table, from) == name
    decreases |name|
  {
    HoldsParts(table, from, name, [0]);
    assert table[from + |name|] == table[from + |name|..from + |name| + 1][0];
    if name != [] {
      assert table[from] == table[from..from + |name|][0] == name[0];
      assert name[0] in name;
      assert name + [0] == [name[0]] + (name[1..] + [0]);
      HoldsParts(table, from, [name[0]], name[1..] + [0]);
      CStringIs(table, from + 1, name[1..]);
    }
  }

  lemma {:induction false} StringHolds(symbols: seq<Symbol>, i: nat, n: nat)
    requires i < n <= |symbols|
    ensures Holds(Strings(symbols, n), |Strings(symbols, i)|, symbols[i].name + [0])
  {
    if i == n - 1 {
      HoldsParts(Strings(symbols, n), 0, Strings(symbols, i), symbols[i].name + [0]);
    } else {
      StringHolds(symbols, i, n - 1);
      AppendKeeps(Strings(symbols, n - 1), symbols[n - 1].name + [0], |Strings(symbols, i)|, symbols[i].name + [0]);
    }
  }

  lemma {:induction false} FirstIsEmpty(symbols: seq<Symbol>, n: nat)
    requires n <= |symbols|
    ensures Strings(symbols, n)[0] == 0
  {
    if n > 0 {
      FirstIsEmpty(symbols, n - 1);
    }
  }

  /** The symbols carry the places of their names. */
  ghost predicate OffsetsOk(symbols: seq<Symbol>, n: nat)
    requires n <= |symbols|
  {
    forall i {:trigger OffsetOk(symbols, i)} :: 0 <= i < n ==> OffsetOk(symbols, i)
  }

  ghost predicate OffsetOk(symbols: seq<Symbol>, i: nat)
    requires i < |symbols|
  {
    symbols[i].nameOffset == |Strings(symbols, i)|
  }

  ghost predicate NamesOk(symbols: seq<Symbol>) {
    forall i {:trigger symbols[i]} :: 0 <= i < |symbols| ==> 0 !in symbols[i].name
  }

  // ---------------------------------------------------------------- tables are read back

  function EntryOf(s: Symbol): Entry {
    Entry(s.name, s.value, 0, s.shndx, s.bind, s.typ, 0)
  }

  lemma {:induction false} FlatAt(table: seq<byte>, at: nat, parts: seq<Bytes24>, k: nat)
    requires Holds(table, at, Flat(parts)) && k < |parts|
    ensures Holds(table, at + 24 * k, parts[k])
  {
    var n := |parts| - 1;
    var rest := parts[..n];
    HoldsParts(table, at, Flat(rest), parts[n]);
    if k < n {
      FlatAt(table, at, rest, k);
    }
  }

  lemma {:induction false} PartsAre(symbols: seq<Symbol>, local: bool, n: nat, k: nat)
    requires n <= |symbols| && k < |Chosen(symbols, local, n)|
    ensures ChosenParts(symbols, local, n)[k] == SymbolBytes(symbols[Chosen(symbols, local, n)[k]])
  {
    if k < |Chosen(symbols, local, n - 1)| {
      PartsAre(symbols, local, n - 1, k);
    }
  }

  /** The entry of a chosen symbol in a table that has the chosen ones behind `before`. */
  lemma ChosenHolds(symbols: seq<Symbol>, local: bool, k: nat, table: seq<byte>, before: seq<byte>, after: seq<byte>)
    requires k < |Chosen(symbols, local, |symbols|)|
    requires table == before + ChosenBytes(symbols, local, |symbols|) + after
    ensures Holds(table, |before| + 24 * k, SymbolBytes(symbols[Chosen(symbols, local, |symbols|)[k]]))
  {
    var parts := ChosenParts(symbols, local, |symbols|);
    Middle(table, before, Flat(parts), after);
    FlatAt(table, |before|, parts, k);
    PartsAre(symbols, local, |symbols|, k);
  }

  lemma Middle(table: seq<byte>, before: seq<byte>, piece: seq<byte>, after: seq<byte>)
    requires table == before + piece + after
    ensures Holds(table, |before|, piece)
  {
  }

  lemma Grouped(a: seq<byte>, b: seq<byte>, c: seq<byte>)
    ensures a + (b + c) == a + b + c == (a + b) + c + []
  {
  }

  /** The entry at each place of the table: the locals first. */
  lemma EntryHolds(symbols: seq<Symbol>, k: nat, table: seq<byte>)
    requires k < |Order(symbols)| && table == SymbolTable(symbols)
    ensures Holds(table, 24 + 24 * k, SymbolBytes(symbols[Order(symbols)[k]]))
  {
    var n := |symbols|;
    var locals, others := ChosenBytes(symbols, true, n), ChosenBytes(symbols, false, n);
    Grouped(Zeros(24), locals, others);
    GroupHolds(symbols, k, table, locals, others, |Chosen(symbols, true, n)|);
  }

  lemma GroupHolds(symbols: seq<Symbol>, k: nat, table: seq<byte>, locals: seq<byte>, others: seq<byte>, count: nat)
    requires k < |Order(symbols)| && count == |Chosen(symbols, true, |symbols|)| && |locals| == 24 * count
    requires locals == ChosenBytes(symbols, true, |symbols|) && others == ChosenBytes(symbols, false, |symbols|)
    requires table == Zeros(24) + locals + others && table == (Zeros(24) + locals) + others + []
    ensures Holds(table, 24 + 24 * k, SymbolBytes(symbols[Order(symbols)[k]]))
  {
    if k < count {
      ChosenHolds(symbols, true, k, table, Zeros(24), others);
    } else {
      ChosenHolds(symbols, false, k - count, table, Zeros(24) + locals, []);
    }
  }

  ghost predicate SymbolsOk(symbols: seq<Symbol>) {
    && OffsetsOk(symbols, |symbols|) && NamesOk(symbols) && |Strings(symbols, |symbols|)| <= 0x1_0000_0000
    && forall i {:trigger symbols[i]} :: 0 <= i < |symbols| ==> SymbolFits(symbols[i])
  }

  lemma EntryStands(table: seq<byte>, at: nat, s: Symbol, strings: seq<byte>)
    requires Holds(table, at, SymbolBytes(s)) && SymbolFits(s) && s.nameOffset < 0x1_0000_0000
    requires Holds(strings, s.nameOffset, s.name + [0]) && 0 !in s.name
    ensures at + 24 <= |table| && ReadEntry(table, at, strings) == EntryOf(s)
  {
    CStringIs(strings, s.nameOffset, s.name);
    EntryIsRead(table, at, s, strings);
  }

  lemma OneEntry(symbols: seq<Symbol>, k: nat, i: nat)
    requires SymbolsOk(symbols) && k < |Order(symbols)| && Order(symbols)[k] == i
    ensures 24 * (k + 2) <= |SymbolTable(symbols)|
    ensures ReadEntry(SymbolTable(symbols), 24 * (k + 1), Strings(symbols, |symbols|)) == EntryOf(symbols[i])
  {
    var n := |symbols|;
    ChosenCount(symbols, n);
    EntryHolds(symbols, k, SymbolTable(symbols));
    StringHolds(symbols, i, n);
    assert OffsetOk(symbols, i);
    EntryStands(SymbolTable(symbols), 24 * (k + 1), symbols[i], Strings(symbols, n));
  }

  /** The symbols at the first `n` places of an order. */
  function InOrder(symbols: seq<Symbol>, order: seq<nat>, n: nat): (e: seq<Entry>)
    requires n <= |order| && forall k {:trigger order[k]} :: 0 <= k < n ==> order[k] < |symbols|
    ensures |e| == n
  {
    if n == 0 then [] else InOrder(symbols, order, n - 1) + [EntryOf(symbols[order[n - 1]])]
  }

  ghost predicate EntryReads(table: seq<byte>, strings: seq<byte>, want: seq<Entry>, k: nat)
    requires k < |want|
  {
    24 * (k + 1) <= |table| && ReadEntry(table, 24 * k, strings) == want[k]
  }

  lemma NextEntry(table: seq<byte>, strings: seq<byte>, want: seq<Entry>, n: nat)
    requires 0 < n <= |want| && 24 * n <= |table| && ReadEntries(table, strings, n - 1) == want[..n - 1]
    requires EntryReads(table, strings, want, n - 1)
    ensures ReadEntries(table, strings, n) == want[..n]
  {
    assert want[..n] == want[..n - 1] + [want[n - 1]];
  }

  lemma {:induction false} InOrderAt(symbols: seq<Symbol>, order: seq<nat>, n: nat, k: nat)
    requires k < n <= |order| && forall k {:trigger order[k]} :: 0 <= k < n ==> order[k] < |symbols|
    ensures InOrder(symbols, order, n)[k] == EntryOf(symbols[order[k]])
  {
    if k < n - 1 {
      InOrderAt(symbols, order, n - 1, k);
    }
  }

  /** The symbol table as it should be read: the null entry, then the symbols, locals first. */
  function Wanted(symbols: seq<Symbol>): (e: seq<Entry>)
    ensures |e| == |symbols| + 1
  {
    ChosenCount(symbols, |symbols|);
    [EntryOf(NO_SYMBOL)] + InOrder(symbols, Order(symbols), |Order(symbols)|)
  }

  lemma WantedAt(symbols: seq<Symbol>, j: nat)
    requires j < |symbols| == |Order(symbols)|
    ensures Wanted(symbols)[j + 1] == EntryOf(symbols[Order(symbols)[j]])
  {
    InOrderAt(symbols, Order(symbols), |symbols|, j);
  }

  lemma WantedIsRead(symbols: seq<Symbol>, k: nat)
    requires SymbolsOk(symbols) && k <= |symbols|
    ensures EntryReads(SymbolTable(symbols), Strings(symbols, |symbols|), Wanted(symbols), k)
  {
    ChosenCount(symbols, |symbols|);
    if k == 0 {
      NullEntry(symbols);
    } else {
      var j := k - 1;
      assert k == j + 1;
      WantedAt(symbols, j);
      OneEntry(symbols, j, Order(symbols)[j]);
    }
  }

  lemma {:induction false} FirstAreRead(symbols: seq<Symbol>, n: nat)
    requires SymbolsOk(symbols) && n <= |symbols| + 1
    ensures ReadEntries(SymbolTable(symbols), Strings(symbols, |symbols|), n) == Wanted(symbols)[..n]
  {
    if n > 0 {
      FirstAreRead(symbols, n - 1);
      WantedIsRead(symbols, n - 1);
      NextEntry(SymbolTable(symbols), Strings(symbols, |symbols|), Wanted(symbols), n);
    }
  }

  lemma EntriesAreRead(symbols: seq<Symbol>)
    requires SymbolsOk(symbols)
    ensures ReadEntries(SymbolTable(symbols), Strings(symbols, |symbols|), |symbols| + 1) == Wanted(symbols)
  {
    FirstAreRead(symbols, |symbols| + 1);
  }

  lemma NullEntry(symbols: seq<Symbol>)
    ensures ReadEntry(SymbolTable(symbols), 0, Strings(symbols, |symbols|)) == EntryOf(NO_SYMBOL)
  {
    var table := SymbolTable(symbols);
    assert table[0..24] == Zeros(24);
    NoSymbolIsZeros();
    FirstIsEmpty(symbols, |symbols|);
    EntryIsRead(table, 0, NO_SYMBOL, Strings(symbols, |symbols|));
  }

  /** Relocations as they should be read: each against its symbol's place in the table. */
  function RelaList(relocs: seq<Reloc>, places: seq<nat>, n: nat): (r: seq<Relocation>)
    requires n <= |relocs| && forall k {:trigger relocs[k]} :: 0 <= k < n ==> relocs[k].sym < |places|
    ensures |r| == n
  {
    if n == 0 then []
    else
      var x := relocs[n - 1];
      RelaList(relocs, places, n - 1) + [Relocation(x.off, places[x.sym], x.typ, x.addend)]
  }

  lemma {:induction false} RelasAreRead(table: seq<byte>, relocs: seq<Reloc>, places: seq<nat>, n: nat)
    requires n <= |relocs| && |places| <= CAPACITY &&
             forall k {:trigger relocs[k]} :: 0 <= k < |relocs| ==> RelocFits(relocs[k], |places|)
    requires forall k {:trigger places[k]} :: 0 <= k < |places| ==> places[k] <= |places|
    requires forall k {:trigger relocs[k]} :: 0 <= k < |relocs| ==> relocs[k].sym < |places|
    requires Holds(table, 0, Relas(relocs, places, n))
    ensures 24 * n <= |table| && ReadRelas(table, n) == RelaList(relocs, places, n)
  {
    if n > 0 {
      var last := relocs[n - 1];
      assert RelocFits(last, |places|) && places[last.sym] <= |places|;
      HoldsParts(table, 0, Relas(relocs, places, n - 1), RelaBytes(last, places[last.sym]));
      RelasAreRead(table, relocs, places, n - 1);
      RelaIsRead(table, 24 * (n - 1), last, places[last.sym]);
    }
  }

  // ---------------------------------------------------------------- section names are read back

  /** The names, each ended by a zero. */
  function Joined(names: seq<seq<byte>>): seq<byte> {
    if names == [] then [] else names[0] + [0] + Joined(names[1..])
  }

  /** A dot and then no other. */
  predicate IsDotted(name: seq<byte>) {
    |name| >= 3 && name[0] == 46 && forall i :: 1 <= i < |name| ==> name[i] != 46
  }

  predicate Differ(a: seq<byte>, b: seq<byte>) {
    |a| >= 3 && |b| >= 3 && (a[1] != b[1] || a[2] != b[2])
  }

  lemma HoldsByte(file: seq<byte>, at: nat, piece: seq<byte>, k: nat)
    requires Holds(file, at, piece) && k < |piece|
    ensures file[at + k] == piece[k]
  {
    assert file[at..at + |piece|][k] == piece[k];
  }

  predicate BeginsAt(table: seq<byte>, name: seq<byte>, i: nat) {
    i + |name| <= |table| && table[i..i + |name|] == name
  }

  /** A search passes over a stretch in which the name begins nowhere. */
  lemma {:induction false} Skips(table: seq<byte>, name: seq<byte>, from: nat, end: nat)
    requires from <= end && end + |name| <= |table| && name != []
    requires forall i {:trigger BeginsAt(table, name, i)} :: from <= i < end ==> !BeginsAt(table, name, i)
    ensures NameAt(table, name, from) == NameAt(table, name, end)
    decreases end - from
  {
    if from < end {
      assert !BeginsAt(table, name, from);
      Skips(table, name, from + 1, end);
    }
  }

  lemma FirstBytes(table: seq<byte>, name: seq<byte>, i: nat)
    requires BeginsAt(table, name, i) && |name| >= 3
    ensures table[i] == name[0] && table[i + 1] == name[1] && table[i + 2] == name[2]
  {
    HoldsByte(table, i, name, 0);
    HoldsByte(table, i, name, 1);
    HoldsByte(table, i, name, 2);
  }

  lemma SkipsName(table: seq<byte>, name: seq<byte>, at: nat, first: seq<byte>)
    requires Holds(table, at, first + [0]) && at + |first| + 1 + |name| <= |table|
    requires IsDotted(first) && |name| >= 3 && name[0] == 46 && Differ(first, name)
    ensures NameAt(table, name, at) == NameAt(table, name, at + |first| + 1)
  {
    forall i {:trigger BeginsAt(table, name, i)} | at <= i < at + |first| + 1
      ensures !BeginsAt(table, name, i)
    {
      HoldsByte(table, at, first + [0], i - at);
      HoldsByte(table, at, first + [0], 1);
      HoldsByte(table, at, first + [0], 2);
      if BeginsAt(table, name, i) {
        FirstBytes(table, name, i);
      }
    }
    Skips(table, name, at, at + |first| + 1);
  }

  /** No earlier name begins like name `k`. */
  ghost predicate IsFirst(names: seq<seq<byte>>, k: nat)
    requires k < |names|
  {
    && |names[k]| >= 3 && names[k][0] == 46 && 0 !in names[k]
    && forall j {:trigger names[j]} :: 0 <= j < k ==> IsDotted(names[j]) && Differ(names[j], names[k])
  }

  lemma RestIsFirst(names: seq<seq<byte>>, k: nat)
    requires 0 < k < |names| && IsFirst(names, k)
    ensures names[1..][k - 1] == names[k] && IsFirst(names[1..], k - 1)
    ensures IsDotted(names[0]) && Differ(names[0], names[k])
  {
    var rest := names[1..];
    assert forall j {:trigger rest[j]} :: 0 <= j < k - 1 ==> rest[j] == names[j + 1];
  }

  lemma FirstStands(table: seq<byte>, at: nat, name: seq<byte>)
    requires Holds(table, at, name + [0]) && name != [] && 0 !in name
    ensures CString(table, NameAt(table, name, at)) == name && NameAt(table, name, at) <= |table|
  {
    HoldsParts(table, at, name, [0]);
    CStringIs(table, at, name);
    assert NameAt(table, name, at) == at;
  }

  lemma LaterStands(table: seq<byte>, at: nat, first: seq<byte>, names: seq<seq<byte>>, k: nat, name: seq<byte>)
    requires Holds(table, at, first + [0]) && Holds(table, at + |first| + 1, Joined(names))
    requires k < |names| && names[k] == name && IsFirst(names, k) && IsDotted(first) && Differ(first, name)
    ensures CString(table, NameAt(table, name, at)) == name && NameAt(table, name, at) <= |table|
    decreases k, 1
  {
    JoinedLength(names, k);
    SkipsName(table, name, at, first);
    NameStands(table, at + |first| + 1, names, k);
  }

  /** Where a name stands, if no earlier one begins like it. */
  lemma {:induction false} NameStands(table: seq<byte>, at: nat, names: seq<seq<byte>>, k: nat)
    requires k < |names| && Holds(table, at, Joined(names)) && IsFirst(names, k)
    ensures CString(table, NameAt(table, names[k], at)) == names[k] && NameAt(table, names[k], at) <= |table|
    decreases k, 0
  {
    var first, rest := names[0], names[1..];
    HoldsParts(table, at, first + [0], Joined(rest));
    if k == 0 {
      FirstStands(table, at, first);
    } else {
      RestIsFirst(names, k);
      LaterStands(table, at, first, rest, k - 1, names[k]);
    }
  }

  lemma {:induction false} JoinedLength(names: seq<seq<byte>>, k: nat)
    requires k < |names|
    ensures |names[k]| < |Joined(names)|
  {
    if k > 0 {
      JoinedLength(names[1..], k - 1);
    }
  }

  const NAMES: seq<seq<byte>> := [TEXT, DATA, BSS, SHSTRTAB, SYMTAB, STRTAB, RELA_TEXT]

  lemma NamesAreJoined()
    ensures SECTION_NAMES == [0, 0] + Joined(NAMES)
  {
    LastAreJoined();
    var last := [SHSTRTAB, SYMTAB, STRTAB, RELA_TEXT];
    assert [BSS] + last == NAMES[2..] && [DATA] + ([BSS] + last) == NAMES[1..];
    JoinedOne(BSS, last);
    JoinedOne(DATA, [BSS] + last);
    JoinedOne(TEXT, [DATA] + ([BSS] + last));
    assert NAMES == [TEXT] + ([DATA] + ([BSS] + last));
  }

  lemma LastAreJoined()
    ensures Joined([SHSTRTAB, SYMTAB, STRTAB, RELA_TEXT]) == LAST_NAMES
  {
    JoinedOne(RELA_TEXT, []);
    JoinedOne(STRTAB, [RELA_TEXT]);
    JoinedOne(SYMTAB, [STRTAB, RELA_TEXT]);
    JoinedOne(SHSTRTAB, [SYMTAB, STRTAB, RELA_TEXT]);
    assert [STRTAB] + [RELA_TEXT] == [STRTAB, RELA_TEXT];
    assert [SYMTAB] + [STRTAB, RELA_TEXT] == [SYMTAB, STRTAB, RELA_TEXT];
    assert [SHSTRTAB] + [SYMTAB, STRTAB, RELA_TEXT] == [SHSTRTAB, SYMTAB, STRTAB, RELA_TEXT];
    assert [RELA_TEXT] + [] == [RELA_TEXT] && RELA_TEXT + [0] + [] == RELA_TEXT + [0];
  }

  lemma JoinedOne(name: seq<byte>, rest: seq<seq<byte>>)
    ensures Joined([name] + rest) == name + [0] + Joined(rest)
  {
    assert ([name] + rest)[1..] == rest;
  }

  lemma NamesAreDotted(k: nat)
    requires k < |NAMES|
    ensures IsFirst(NAMES, k)
  {
  }

  /** Every section name is found where the writer put it. */
  lemma SectionNamesAreRead(k: nat)
    requires k < |NAMES|
    ensures |SECTION_NAMES| < 100 && SECTION_NAMES[0] == 0
    ensures CString(SECTION_NAMES, NameAt(SECTION_NAMES, NAMES[k], 0)) == NAMES[k]
    ensures NameAt(SECTION_NAMES, NAMES[k], 0) <= |SECTION_NAMES|
  {
    NamesAreJoined();
    NamesAreDotted(k);
    JoinedLength(NAMES, k);
    Skips(SECTION_NAMES, NAMES[k], 0, 2);
    NameStands(SECTION_NAMES, 2, NAMES, k);
  }

  /** The names are spelled as the gABI spells them. */
  lemma NamesAreSpelled()
    ensures TEXT == Ascii(".text") && DATA == Ascii(".data") && BSS == Ascii(".bss")
  {
  }

  lemma TablesAreSpelled()
    ensures SHSTRTAB == Ascii(".shstrtab")
    ensures STRTAB == Ascii(".strtab")
  {
  }

  lemma SymtabIsSpelled()
    ensures SYMTAB == Ascii(".symtab")
  {
  }

  lemma RelaIsSpelled()
    ensures RELA_TEXT == Ascii(".rela.text")
  {
  }

  // ---------------------------------------------------------------- the file is read back

  ghost predicate FieldsFit(machine: nat, text: Section, data: Section, bss: Section, symbols: seq<Symbol>,
      relocs: seq<Reloc>) {
    && machine < 0x1_0000 && text.flags < WIDTH64 && data.flags < WIDTH64 && bss.flags < WIDTH64
    && text.align < WIDTH64 && data.align < WIDTH64 && bss.align < WIDTH64 && bss.size < WIDTH64
    && PlanOf(text, data, symbols, relocs).end < WIDTH64
  }

  lemma HeadersFit(p: Plan, text: Section, data: Section, bss: Section, symbols: nat, locals: nat, strings: nat,
                   relas: nat)
    requires text.flags < WIDTH64 && data.flags < WIDTH64 && bss.flags < WIDTH64
    requires text.align < WIDTH64 && data.align < WIDTH64 && bss.align < WIDTH64 && bss.size < WIDTH64
    requires p.text < WIDTH64 && p.data < WIDTH64 && p.symtab < WIDTH64 && p.strtab < WIDTH64 && p.shstrtab < WIDTH64
    requires p.rela < WIDTH64 && |text.data| < WIDTH64 && |data.data| < WIDTH64
    requires symbols <= CAPACITY && locals <= CAPACITY && strings < WIDTH64 && 24 * relas < WIDTH64
    ensures var h := HeadersFrom(p, text, data, bss, symbols, locals, strings, relas);
      forall k {:trigger h[k]} :: 0 <= k < 8 ==> HeaderFits(h[k])
  {
    NamesBound();
  }

  lemma NamesBound()
    ensures |SECTION_NAMES| < 100
    ensures NameAt(SECTION_NAMES, TEXT, 0) < 100 && NameAt(SECTION_NAMES, DATA, 0) < 100 &&
            NameAt(SECTION_NAMES, BSS, 0) < 100
    ensures NameAt(SECTION_NAMES, SHSTRTAB, 0) < 100 && NameAt(SECTION_NAMES, SYMTAB, 0) < 100
    ensures NameAt(SECTION_NAMES, STRTAB, 0) < 100 && NameAt(SECTION_NAMES, RELA_TEXT, 0) < 100
  {
    forall k | 0 <= k < |NAMES|
      ensures NameAt(SECTION_NAMES, NAMES[k], 0) < 100
    {
      SectionNamesAreRead(k);
    }
    SectionNamesAreRead(0);
    assert NAMES[0] == TEXT && NAMES[1] == DATA && NAMES[2] == BSS && NAMES[3] == SHSTRTAB && NAMES[4] == SYMTAB;
    assert NAMES[5] == STRTAB && NAMES[6] == RELA_TEXT;
  }

  lemma TableIsRead(file: seq<byte>, at: nat, h: seq<SectionHeader>)
    requires Holds(file, at, HeaderTable(h)) && forall k {:trigger h[k]} :: 0 <= k < |h| ==> HeaderFits(h[k])
    ensures at + 64 * |h| <= |file| && ReadHeaders(file, at, |h|) == h
  {
    forall k {:trigger HeaderAt(file, at, h, k)} | 0 <= k < |h|
      ensures HeaderAt(file, at, h, k)
    {
      OneHeader(file, at, h, |h|, k);
    }
    HeadersAreRead(file, at, h, |h|);
    assert h[..|h|] == h;
  }

  lemma AllHeadersFit(machine: nat, text: Section, data: Section, bss: Section, symbols: seq<Symbol>,
                      relocs: seq<Reloc>)
    requires FieldsFit(machine, text, data, bss, symbols, relocs) && |symbols| <= CAPACITY
    ensures var h := Headers(text, data, bss, symbols, relocs);
      forall k {:trigger h[k]} :: 0 <= k < 8 ==> HeaderFits(h[k])
  {
    var p := PlanOf(text, data, symbols, relocs);
    PlanIsSound(text, data, symbols, relocs);
    HeadersFit(p, text, data, bss, |symbols|, |Chosen(symbols, true, |symbols|)|, |Strings(symbols, |symbols|)|,
               |TextRelocs(relocs, |relocs|)|);
  }

  lemma HeaderTableIsRead(file: seq<byte>, machine: nat, text: Section, data: Section, bss: Section,
                          symbols: seq<Symbol>, relocs: seq<Reloc>)
    requires FieldsFit(machine, text, data, bss, symbols, relocs) && |symbols| <= CAPACITY
    requires var p := PlanOf(text, data, symbols, relocs);
      Holds(file, p.headers, HeaderTable(Headers(text, data, bss, symbols, relocs)))
    ensures var p, h := PlanOf(text, data, symbols, relocs), Headers(text, data, bss, symbols, relocs);
      p.headers + 512 <= |file| && ReadHeaders(file, p.headers, |h|) == h
  {
    AllHeadersFit(machine, text, data, bss, symbols, relocs);
    TableIsRead(file, PlanOf(text, data, symbols, relocs).headers, Headers(text, data, bss, symbols, relocs));
  }

  lemma {:induction false} FirstName(h: seq<SectionHeader>, names: seq<byte>, name: seq<byte>, from: nat, k: nat)
    requires from <= k < |h| && CString(names, h[k].name) == name
    requires forall i {:trigger h[i]} :: from <= i < k ==> CString(names, h[i].name) != name
    ensures FindName(h, names, name, from) == Some(k)
    decreases k - from
  {
    if from < k {
      FirstName(h, names, name, from + 1, k);
    }
  }

  lemma {:induction false} FirstRela(h: seq<SectionHeader>, target: nat, from: nat, k: nat)
    requires from <= k < |h| && h[k].typ == RELA && h[k].info == target
    requires forall i {:trigger h[i]} :: from <= i < k ==> h[i].typ != RELA
    ensures FindRela(h, target, from) == Some(k)
    decreases k - from
  {
    if from < k {
      FirstRela(h, target, from + 1, k);
    }
  }

  lemma NamesFound(h: seq<SectionHeader>, names: seq<byte>, a: seq<byte>, b: seq<byte>, c: seq<byte>)
    requires |h| == 8 && CString(names, h[0].name) == [] && CString(names, h[1].name) == a
    requires CString(names, h[2].name) == b && CString(names, h[3].name) == c
    requires a != [] && b != [] && c != [] && a != b && b != c && a != c
    ensures FindName(h, names, a, 0) == Some(1) && FindName(h, names, b, 0) == Some(2)
    ensures FindName(h, names, c, 0) == Some(3)
  {
    FirstName(h, names, a, 0, 1);
    FirstName(h, names, b, 0, 2);
    FirstName(h, names, c, 0, 3);
  }

  lemma HeaderNamed(text: Section, data: Section, bss: Section, symbols: seq<Symbol>, relocs: seq<Reloc>, k: nat)
    requires k < 7
    ensures Headers(text, data, bss, symbols, relocs)[k + 1].name == NameAt(SECTION_NAMES, NAMES[k], 0)
  {
  }

  /** The names of the sections after the null one. */
  lemma SectionsNamed(text: Section, data: Section, bss: Section, symbols: seq<Symbol>, relocs: seq<Reloc>)
    ensures var h := Headers(text, data, bss, symbols, relocs);
      && CString(SECTION_NAMES, h[0].name) == []
      && forall k {:trigger NAMES[k]} :: 0 <= k < 7 ==> CString(SECTION_NAMES, h[k + 1].name) == NAMES[k]
  {
    var h := Headers(text, data, bss, symbols, relocs);
    SectionNamesAreRead(0);
    forall k {:trigger NAMES[k]} | 0 <= k < 7
      ensures CString(SECTION_NAMES, h[k + 1].name) == NAMES[k]
    {
      SectionNamesAreRead(k);
      HeaderNamed(text, data, bss, symbols, relocs, k);
    }
  }

  lemma RelaFound(text: Section, data: Section, bss: Section, symbols: seq<Symbol>, relocs: seq<Reloc>)
    ensures FindRela(Headers(text, data, bss, symbols, relocs), 1, 0) == Some(7)
  {
    FirstRela(Headers(text, data, bss, symbols, relocs), 1, 0, 7);
  }

  /** The reader finds the sections it looks for. */
  lemma SectionsFound(text: Section, data: Section, bss: Section, symbols: seq<Symbol>, relocs: seq<Reloc>)
    ensures Found(Headers(text, data, bss, symbols, relocs), SECTION_NAMES)
  {
    var h := Headers(text, data, bss, symbols, relocs);
    SectionsNamed(text, data, bss, symbols, relocs);
    assert NAMES[0] == TEXT && NAMES[1] == DATA && NAMES[2] == BSS;
    assert TEXT[1] != DATA[1] && TEXT[1] != BSS[1] && DATA[1] != BSS[1];
    NamesFound(h, SECTION_NAMES, TEXT, DATA, BSS);
    RelaFound(text, data, bss, symbols, relocs);
    NamesAreSpelled();
  }

  lemma SliceIs(file: seq<byte>, at: nat, piece: seq<byte>)
    requires Holds(file, at, piece)
    ensures Slice(file, at, |piece|) == Some(piece)
  {
  }

  /** The object the writer was asked for. */
  function ObjectOf(machine: nat, text: Section, data: Section, bss: Section, symbols: seq<Symbol>, relocs: seq<Reloc>,
                    places: seq<nat>): Object
    requires forall k {:trigger TextRelocs(relocs, |relocs|)[k]} ::
      0 <= k < |TextRelocs(relocs, |relocs|)| ==> TextRelocs(relocs, |relocs|)[k].sym < |places|
  {
    var some := TextRelocs(relocs, |relocs|);
    Object(HeadOf(machine, PlanOf(text, data, symbols, relocs).headers),
           Views(Headers(text, data, bss, symbols, relocs), SECTION_NAMES), text.data, data.data, bss.size,
           Wanted(symbols), |Chosen(symbols, true, |symbols|)| + 1, RelaList(some, places, |some|))
  }

  /** What the reader finds in each of the sections. */
  lemma ContentsAreRead(file: seq<byte>, machine: nat, text: Section, data: Section, bss: Section, symbols: seq<Symbol>,
                        relocs: seq<Reloc>, places: seq<nat>)
    requires IsObject(file, machine, text, data, bss, symbols, relocs, places)
    ensures var p, some := PlanOf(text, data, symbols, relocs), TextRelocs(relocs, |relocs|);
      && Slice(file, p.text, |text.data|) == Some(text.data) && Slice(file, p.data, |data.data|) == Some(data.data)
      && Slice(file, p.symtab, 24 * (|symbols| + 1)) == Some(SymbolTable(symbols))
      && Slice(file, p.strtab, |Strings(symbols, |symbols|)|) == Some(Strings(symbols, |symbols|))
      && Slice(file, p.shstrtab, |SECTION_NAMES|) == Some(SECTION_NAMES)
      && Slice(file, p.rela, 24 * |some|) == Some(Relas(some, places, |some|))
  {
    var p, some := PlanOf(text, data, symbols, relocs), TextRelocs(relocs, |relocs|);
    assert file[0..0] == [];
    if |text.data| > 0 {
      SliceIs(file, p.text, text.data);
    }
    if |data.data| > 0 {
      SliceIs(file, p.data, data.data);
    }
    SliceIs(file, p.symtab, SymbolTable(symbols));
    SliceIs(file, p.strtab, Strings(symbols, |symbols|));
    SliceIs(file, p.shstrtab, SECTION_NAMES);
    if |some| > 0 {
      SliceIs(file, p.rela, Relas(some, places, |some|));
    }
  }

  lemma TablesAreRead(symbols: seq<Symbol>, relocs: seq<Reloc>, places: seq<nat>)
    requires WellFormed(symbols, relocs) && SymbolsOk(symbols) && PlacesOk(symbols, places)
    ensures var some := TextRelocs(relocs, |relocs|);
      && (forall k {:trigger some[k]} :: 0 <= k < |some| ==> some[k].sym < |places|)
      && ReadEntries(SymbolTable(symbols), Strings(symbols, |symbols|), |symbols| + 1) == Wanted(symbols)
      && |Relas(some, places, |some|)| == 24 * |some|
      && ReadRelas(Relas(some, places, |some|), |some|) == RelaList(some, places, |some|)
  {
    var some := TextRelocs(relocs, |relocs|);
    EntriesAreRead(symbols);
    TextRelocsFit(relocs, |relocs|, |symbols|);
    assert forall k {:trigger some[k]} :: 0 <= k < |some| ==> RelocFits(some[k], |places|);
    RelasAreRead(Relas(some, places, |some|), some, places, |some|);
  }

  /** What the headers say about the contents. */
  ghost predicate Points(h: seq<SectionHeader>, p: Plan, text: nat, data: nat, bss: nat, symbols: nat, locals: nat,
                         strings: nat, relas: nat)
  {
    && |h| == 8
    && h[1].typ == PROGBITS && h[1].offset == p.text && h[1].size == text
    && h[2].typ == PROGBITS && h[2].offset == p.data && h[2].size == data
    && h[3].typ == NOBITS && h[3].size == bss
    && h[5].typ == SYMBOLS && h[5].offset == p.symtab && h[5].size == 24 * symbols && h[5].link == 6
    && h[5].entsize == 24 && h[5].info == locals + 1
    && h[6].typ == STRINGS && h[6].offset == p.strtab && h[6].size == strings
    && h[7].typ == RELA && h[7].offset == p.rela && h[7].size == 24 * relas && h[7].entsize == 24
    && h[7].link == 5 && h[7].info == 1
  }

  ghost predicate Found(h: seq<SectionHeader>, names: seq<byte>) {
    && FindName(h, names, Ascii(".text"), 0) == Some(1) && FindName(h, names, Ascii(".data"), 0) == Some(2)
    && FindName(h, names, Ascii(".bss"), 0) == Some(3) && FindRela(h, 1, 0) == Some(7)
  }

  /** What reading the sections comes to once they are found and sliced. */
  lemma Sliced(file: seq<byte>, head: FileHead, h: seq<SectionHeader>, names: seq<byte>, p: Plan, t: seq<byte>,
               d: seq<byte>, bss: nat, locals: nat, s: seq<byte>, n: nat, strings: seq<byte>, r: seq<byte>, m: nat,
               e: seq<Entry>, q: seq<Relocation>)
    requires |s| == 24 * n && |r| == 24 * m && ReadEntries(s, strings, n) == e && ReadRelas(r, m) == q
    requires Points(h, p, |t|, |d|, bss, n, locals, |strings|, m) && Found(h, names)
    requires Slice(file, p.text, |t|) == Some(t) && Slice(file, p.data, |d|) == Some(d)
    requires Slice(file, p.symtab, |s|) == Some(s) && Slice(file, p.strtab, |strings|) == Some(strings)
    requires Slice(file, p.rela, |r|) == Some(r)
    ensures ReadSections(file, head, h, names) == Some(Object(head, Views(h, names), t, d, bss, e, locals + 1, q))
  {
    assert |s| / 24 == n && |r| / 24 == m;
    assert ReadContents(file, head, Views(h, names), h[1], h[2], h[3], h[7], h[5], h[6]) ==
      Some(Object(head, Views(h, names), t, d, bss, e, locals + 1, q));
  }

  /** What reading a file comes to once its headers are read. */
  lemma Headed(file: seq<byte>, machine: nat, shoff: nat, h: seq<SectionHeader>, names: seq<byte>, o: Object)
    requires 64 <= |file| && ReadHead(file) == HeadOf(machine, shoff) && IsRelocatable(ReadHead(file))
    requires |h| == 8 && shoff + 64 * |h| <= |file| && ReadHeaders(file, shoff, |h|) == h
    requires IsNull(h[0]) && h[4].typ == STRINGS
    requires Slice(file, h[4].offset, h[4].size) == Some(names)
    requires ReadSections(file, HeadOf(machine, shoff), h, names) == Some(o)
    ensures Read(file) == Some(o)
  {
  }

  lemma HeadersPoint(text: Section, data: Section, bss: Section, symbols: seq<Symbol>, relocs: seq<Reloc>)
    ensures var h, p := Headers(text, data, bss, symbols, relocs), PlanOf(text, data, symbols, relocs);
      && Points(h, p, |text.data|, |data.data|, bss.size, |symbols| + 1, |Chosen(symbols, true, |symbols|)|,
                |Strings(symbols, |symbols|)|, |TextRelocs(relocs, |relocs|)|)
      && IsNull(h[0]) && h[4].typ == STRINGS && h[4].offset == p.shstrtab && h[4].size == |SECTION_NAMES|
  {
  }

  /** The reader gets back what the writer was given. */
  lemma ObjectIsRead(file: seq<byte>, machine: nat, text: Section, data: Section, bss: Section, symbols: seq<Symbol>,
                     relocs: seq<Reloc>, places: seq<nat>)
    requires IsObject(file, machine, text, data, bss, symbols, relocs, places)
    requires WellFormed(symbols, relocs) && SymbolsOk(symbols) && FieldsFit(machine, text, data, bss, symbols, relocs)
    ensures Read(file) == Some(ObjectOf(machine, text, data, bss, symbols, relocs, places))
  {
    var shoff := PlanOf(text, data, symbols, relocs).headers;
    PlanIsSound(text, data, symbols, relocs);
    FileHeaderIsRead(file, machine, shoff);
    HeaderTableIsRead(file, machine, text, data, bss, symbols, relocs);
    var h := Headers(text, data, bss, symbols, relocs);
    SectionsFound(text, data, bss, symbols, relocs);
    HeadersPoint(text, data, bss, symbols, relocs);
    ContentsAreRead(file, machine, text, data, bss, symbols, relocs, places);
    TablesAreRead(symbols, relocs, places);
    var some := TextRelocs(relocs, |relocs|);
    Sliced(file, HeadOf(machine, shoff), h, SECTION_NAMES, PlanOf(text, data, symbols, relocs), text.data, data.data,
           bss.size, |Chosen(symbols, true, |symbols|)|, SymbolTable(symbols), |symbols| + 1,
           Strings(symbols, |symbols|), Relas(some, places, |some|), |some|, Wanted(symbols),
           RelaList(some, places, |some|));
    Headed(file, machine, shoff, h, SECTION_NAMES, ObjectOf(machine, text, data, bss, symbols, relocs, places));
  }
}
