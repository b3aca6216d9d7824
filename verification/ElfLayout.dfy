/** The pieces of an ELF64 object file and where they lie in it. */
module ElfLayout {
  import opened Bytes
  import opened ElfSymbols

  // ---------------------------------------------------------------- pieces inside a file

  /** The piece stands in the file at an offset. */
  ghost predicate Holds(file: seq<byte>, at: nat, piece: seq<byte>) {
    at + |piece| <= |file| && file[at..at + |piece|] == piece
  }

  lemma HoldsParts(file: seq<byte>, at: nat, a: seq<byte>, b: seq<byte>)
    requires Holds(file, at, a + b)
    ensures Holds(file, at, a) && Holds(file, at + |a|, b)
  {
    assert file[at..at + |a| + |b|][..|a|] == file[at..at + |a|];
    assert file[at..at + |a| + |b|][|a|..] == file[at + |a|..at + |a| + |b|];
    assert (a + b)[..|a|] == a && (a + b)[|a|..] == b;
  }

  lemma HoldsField(file: seq<byte>, at: nat, v: nat, n: nat)
    requires Holds(file, at, PutLE(v, n)) && v < Pow256(n)
    ensures at + n <= |file| && Field(file, at, n) == v
  {
    FieldKeeps(v, n);
  }

  /** Bytes put over bytes of a file. */
  function Patch(file: seq<byte>, at: nat, piece: seq<byte>): (r: seq<byte>)
    requires at + |piece| <= |file|
    ensures |r| == |file|
  {
    file[..at] + piece + file[at + |piece|..]
  }

  lemma PatchHolds(file: seq<byte>, at: nat, piece: seq<byte>)
    requires at + |piece| <= |file|
    ensures Holds(Patch(file, at, piece), at, piece)
  {
  }

  lemma PatchKeeps(file: seq<byte>, at: nat, piece: seq<byte>, other: nat, kept: seq<byte>)
    requires at + |piece| <= |file| && Holds(file, other, kept)
    requires other + |kept| <= at || at + |piece| <= other
    ensures Holds(Patch(file, at, piece), other, kept)
  {
  }

  lemma PatchTwice(file: seq<byte>, at: nat, a: seq<byte>, b: seq<byte>)
    requires at + |a| + |b| <= |file|
    ensures Patch(Patch(file, at, a), at + |a|, b) == Patch(file, at, a + b)
  {
  }

  lemma AppendKeeps(file: seq<byte>, more: seq<byte>, at: nat, piece: seq<byte>)
    requires Holds(file, at, piece)
    ensures Holds(file + more, at, piece)
  {
  }

  // ---------------------------------------------------------------- records

  datatype SectionHeader = SectionHeader(name: nat, typ: nat, flags: nat, addr: nat, offset: nat, size: nat, link: nat,
                                         info: nat, align: nat, entsize: nat)

  function HeaderBytes(h: SectionHeader): (b: seq<byte>)
    ensures |b| == 64
  {
    PutLE(h.name, 4) + PutLE(h.typ, 4) + PutLE(h.flags, 8) + PutLE(h.addr, 8) + PutLE(h.offset, 8) +
      PutLE(h.size, 8) + PutLE(h.link, 4) + PutLE(h.info, 4) + PutLE(h.align, 8) + PutLE(h.entsize, 8)
  }

  type Bytes24 = b: seq<byte> | |b| == 24 witness Zeros(24)

  function SymbolBytes(s: Symbol): (b: Bytes24)
  {
    PutLE(s.nameOffset, 4) + PutLE(s.bind * 16 + s.typ, 1) + PutLE(0, 1) + PutLE(s.shndx, 2) +
      PutLE(s.value, 8) + PutLE(0, 8)
  }

  const NO_SYMBOL: Symbol := Symbol([], 0, 0, 0, 0, 0)

  /** The null entry is all zeros. */
  lemma NoSymbolIsZeros()
    ensures SymbolBytes(NO_SYMBOL) == Zeros(24)
  {
    ZeroField(4);
    ZeroField(1);
    ZeroField(2);
    ZeroField(8);
    assert NO_SYMBOL.bind * 16 + NO_SYMBOL.typ == 0;
  }

  lemma {:induction false} ZeroField(n: nat)
    ensures PutLE(0, n) == Zeros(n)
  {
    if n > 0 {
      ZeroField(n - 1);
    }
  }

  /** A relocation entry; the addend is a signed number. */
  function RelaBytes(r: Reloc, sym: nat): (b: seq<byte>)
    ensures |b| == 24
  {
    PutLE(r.off, 8) + PutLE(sym * 0x1_0000_0000 + r.typ, 8) + PutLE(Unsigned(r.addend), 8)
  }

  function Unsigned(x: int): (u: nat)
    ensures -WIDTH64 / 2 <= x < WIDTH64 / 2 ==> u == if x < 0 then x + WIDTH64 else x
  {
    x % WIDTH64
  }

  /** The 64 bytes at the start of the file. */
  function FileHeader(machine: nat, shoff: nat): (b: seq<byte>)
    ensures |b| == 64
  {
    FileHeaderStart(machine, shoff) + PutLE(0, 4) + PutLE(64, 2) + PutLE(0, 2) + PutLE(0, 2) + PutLE(64, 2) +
      PutLE(8, 2) + PutLE(4, 2)
  }

  function FileHeaderStart(machine: nat, shoff: nat): (b: seq<byte>)
    ensures |b| == 48
  {
    IDENT + PutLE(1, 2) + PutLE(machine, 2) + PutLE(1, 4) + PutLE(0, 8) + PutLE(0, 8) + PutLE(shoff, 8)
  }

  const IDENT: seq<byte> := [0x7f, 69, 76, 70, 2, 1, 1, 0, 0, 0, 0, 0, 0, 0, 0, 0]

  // ---------------------------------------------------------------- tables

  /** The indexes of the local symbols, or of the others, among the first `n`, in order. */
  function Chosen(symbols: seq<Symbol>, local: bool, n: nat): (r: seq<nat>)
    requires n <= |symbols|
    ensures |r| <= n && forall k {:trigger r[k]} :: 0 <= k < |r| ==> r[k] < n && (symbols[r[k]].bind == LOCAL) == local
  {
    if n == 0 then []
    else Chosen(symbols, local, n - 1) + if (symbols[n - 1].bind == LOCAL) == local then [n - 1] else []
  }

  /** The order of the symbol table behind the null entry: locals first. */
  function Order(symbols: seq<Symbol>): (r: seq<nat>)
    ensures forall k {:trigger r[k]} :: 0 <= k < |r| ==> r[k] < |symbols|
  {
    Chosen(symbols, true, |symbols|) + Chosen(symbols, false, |symbols|)
  }

  lemma {:induction false} ChosenCount(symbols: seq<Symbol>, n: nat)
    requires n <= |symbols|
    ensures |Chosen(symbols, true, n)| + |Chosen(symbols, false, n)| == n
  {
    if n > 0 {
      ChosenCount(symbols, n - 1);
    }
  }

  /** Entries of 24 bytes, one behind the other. */
  function Flat(parts: seq<Bytes24>): (b: seq<byte>)
    ensures |b| == 24 * |parts|
  {
    if parts == [] then [] else Flat(parts[..|parts| - 1]) + parts[|parts| - 1]
  }

  lemma FlatMore(parts: seq<Bytes24>, more: Bytes24)
    ensures Flat(parts + [more]) == Flat(parts) + more
  {
    assert (parts + [more])[..|parts|] == parts;
  }

  /** The entries of one kind of symbols. */
  function ChosenParts(symbols: seq<Symbol>, local: bool, n: nat): (p: seq<Bytes24>)
    requires n <= |symbols|
    ensures |p| == |Chosen(symbols, local, n)|
  {
    if n == 0 then []
    else ChosenParts(symbols, local, n - 1) +
         if (symbols[n - 1].bind == LOCAL) == local then [SymbolBytes(symbols[n - 1])] else []
  }

  function ChosenBytes(symbols: seq<Symbol>, local: bool, n: nat): (b: seq<byte>)
    requires n <= |symbols|
    ensures |b| == 24 * |Chosen(symbols, local, n)|
  {
    Flat(ChosenParts(symbols, local, n))
  }

  function SymbolTable(symbols: seq<Symbol>): (b: seq<byte>)
    ensures |b| == 24 * (|symbols| + 1)
  {
    ChosenCount(symbols, |symbols|);
    Zeros(24) + (ChosenBytes(symbols, true, |symbols|) + ChosenBytes(symbols, false, |symbols|))
  }

  /** The string table: an empty name, then the names of the first `n` symbols, each ended by a zero. */
  function Strings(symbols: seq<Symbol>, n: nat): (b: seq<byte>)
    requires n <= |symbols|
    ensures |b| > 0
  {
    if n == 0 then [0] else Strings(symbols, n - 1) + (symbols[n - 1].name + [0])
  }

  lemma {:induction false} SameNames(a: seq<Symbol>, b: seq<Symbol>, n: nat)
    requires n <= |a| == |b|
    requires forall i {:trigger b[i]} :: 0 <= i < |b| ==> b[i] == a[i].(nameOffset := b[i].nameOffset)
    ensures Strings(a, n) == Strings(b, n)
    ensures Chosen(a, true, n) == Chosen(b, true, n) && Chosen(a, false, n) == Chosen(b, false, n)
  {
    if n > 0 {
      SameNames(a, b, n - 1);
      assert b[n - 1].name == a[n - 1].name && b[n - 1].bind == a[n - 1].bind;
    }
  }

  lemma {:induction false} StringsGrow(symbols: seq<Symbol>, n: nat, m: nat)
    requires n <= m <= |symbols|
    ensures |Strings(symbols, n)| + m - n <= |Strings(symbols, m)|
  {
    if n < m {
      StringsGrow(symbols, n, m - 1);
    }
  }

  /** The symbols with the places of their names filled in, modulo 32 bits. */
  function Named(symbols: seq<Symbol>, n: nat): (r: seq<Symbol>)
    requires n <= |symbols|
    ensures |r| == |symbols|
    ensures forall i {:trigger r[i]} :: n <= i < |r| ==> r[i] == symbols[i]
    ensures forall i {:trigger r[i]} :: 0 <= i < |r| ==> r[i] == symbols[i].(nameOffset := r[i].nameOffset)
  {
    if n == 0 then symbols
    else Named(symbols, n - 1)[n - 1 := symbols[n - 1].(nameOffset := |Strings(symbols, n - 1)| % 0x1_0000_0000)]
  }

  /** The relocations of `.text` among the first `n`. */
  function TextRelocs(relocs: seq<Reloc>, n: nat): (r: seq<Reloc>)
    requires n <= |relocs|
    ensures |r| <= n
  {
    if n == 0 then [] else TextRelocs(relocs, n - 1) + if relocs[n - 1].sec == 1 then [relocs[n - 1]] else []
  }

  lemma {:induction false} TextRelocsFit(relocs: seq<Reloc>, n: nat, limit: nat)
    requires n <= |relocs| && forall i {:trigger relocs[i]} :: 0 <= i < |relocs| ==> RelocFits(relocs[i], limit)
    ensures forall k {:trigger TextRelocs(relocs, n)[k]} :: 0 <= k < |TextRelocs(relocs, n)| ==>
      RelocFits(TextRelocs(relocs, n)[k], limit)
  {
    if n > 0 {
      TextRelocsFit(relocs, n - 1, limit);
      var some, r := TextRelocs(relocs, n - 1), TextRelocs(relocs, n);
      forall k | 0 <= k < |r|
        ensures RelocFits(r[k], limit)
      {
        assert r[k] == if k < |some| then some[k] else relocs[n - 1];
        assert k < |some| ==> RelocFits(some[k], limit);
      }
    }
  }

  function Relas(relocs: seq<Reloc>, places: seq<nat>, n: nat): (b: seq<byte>)
    requires n <= |relocs| && forall k {:trigger relocs[k]} :: 0 <= k < n ==> relocs[k].sym < |places|
    ensures |b| == 24 * n
  {
    if n == 0 then [] else Relas(relocs, places, n - 1) + RelaBytes(relocs[n - 1], places[relocs[n - 1].sym])
  }

  /** Where each symbol stands in the table. */
  ghost predicate PlacesOk(symbols: seq<Symbol>, places: seq<nat>) {
    |places| == |symbols| == |Order(symbols)|
    && forall i {:trigger places[i]} :: 0 <= i < |places| ==>
      1 <= places[i] <= |symbols| && Order(symbols)[places[i] - 1] == i
  }

  /** "", "", ".text", ".data", ".bss", ".shstrtab", ".symtab", ".strtab", ".rela.text", each ended by a zero. */
  const SECTION_NAMES: seq<byte> := [0, 0] + (TEXT + [0] + (DATA + [0] + (BSS + [0] + LAST_NAMES)))

  const LAST_NAMES: seq<byte> := SHSTRTAB + [0] + (SYMTAB + [0] + (STRTAB + [0] + (RELA_TEXT + [0])))

  const SHSTRTAB: seq<byte> := [46, 115, 104, 115, 116, 114, 116, 97, 98]
  const SYMTAB: seq<byte> := [46, 115, 121, 109, 116, 97, 98]
  const STRTAB: seq<byte> := [46, 115, 116, 114, 116, 97, 98]
  const RELA_TEXT: seq<byte> := [46, 114, 101, 108, 97, 46, 116, 101, 120, 116]

  /** Where a name first occurs in a table; 0 if it does not. */
  function NameAt(table: seq<byte>, name: seq<byte>, from: nat): (r: nat)
    decreases |table| - from
  {
    if from + |name| > |table| || from >= |table| then 0
    else if table[from..from + |name|] == name then from
    else NameAt(table, name, from + 1)
  }

  /** The eight section headers, from the plan and the sizes of the tables. */
  function HeadersFrom(p: Plan, text: Section, data: Section, bss: Section, symbols: nat, locals: nat, strings: nat,
                       relas: nat): (h: seq<SectionHeader>)
    ensures |h| == 8
  {
    [SectionHeader(0, 0, 0, 0, 0, 0, 0, 0, 0, 0),
     SectionHeader(NameAt(SECTION_NAMES, TEXT, 0), 1, text.flags, 0, p.text, |text.data|, 0, 0, text.align, 0),
     SectionHeader(NameAt(SECTION_NAMES, DATA, 0), 1, data.flags, 0, p.data, |data.data|, 0, 0, data.align, 0),
     SectionHeader(NameAt(SECTION_NAMES, BSS, 0), 8, bss.flags, 0, 0, bss.size, 0, 0, bss.align, 0),
     SectionHeader(NameAt(SECTION_NAMES, SHSTRTAB, 0), 3, 0, 0, p.shstrtab, |SECTION_NAMES|, 0, 0, 1, 0),
     SectionHeader(NameAt(SECTION_NAMES, SYMTAB, 0), 2, 0, 0, p.symtab, 24 * (symbols + 1), 6, locals + 1, 8, 24),
     SectionHeader(NameAt(SECTION_NAMES, STRTAB, 0), 3, 0, 0, p.strtab, strings, 0, 0, 1, 0),
     SectionHeader(NameAt(SECTION_NAMES, RELA_TEXT, 0), 4, 0, 0, p.rela, 24 * relas, 5, 1, 8, 24)]
  }

  function Headers(text: Section, data: Section, bss: Section, symbols: seq<Symbol>,
      relocs: seq<Reloc>): (h: seq<SectionHeader>)
    ensures |h| == 8
  {
    HeadersFrom(PlanOf(text, data, symbols, relocs), text, data, bss, |symbols|, |Chosen(symbols, true, |symbols|)|,
                |Strings(symbols, |symbols|)|, |TextRelocs(relocs, |relocs|)|)
  }

  function AllHeaderBytes(h: seq<SectionHeader>, n: nat): (b: seq<byte>)
    requires n <= |h|
    ensures |b| == 64 * n
  {
    if n == 0 then [] else AllHeaderBytes(h, n - 1) + HeaderBytes(h[n - 1])
  }

  function HeaderTable(h: seq<SectionHeader>): (b: seq<byte>)
    ensures |b| == 64 * |h|
  {
    AllHeaderBytes(h, |h|)
  }

  // ---------------------------------------------------------------- offsets

  function Up(x: nat, align: nat): (r: nat)
    ensures x <= r && (align > 0 ==> r % align == 0 && r < x + align) && (align == 0 ==> r == x)
  {
    if align == 0 then x
    else
      UpIsAligned(x, align);
      x + (align - x % align) % align
  }

  lemma UpIsAligned(x: nat, align: nat)
    requires align > 0
    ensures (x + (align - x % align) % align) % align == 0
  {
    var m := x % align;
    var q := x / align;
    assert x == q * align + m;
    if m == 0 {
      assert (align - m) % align == 0;
    } else {
      assert (align - m) % align == align - m;
      assert x + (align - m) == (q + 1) * align + 0;
      ModUnique(x + (align - m), q + 1, align, 0);
    }
  }

  datatype Plan = Plan(text: nat, textEnd: nat, data: nat, dataEnd: nat, symtab: nat, strtab: nat, shstrtab: nat,
                       headers: nat, rela: nat, end: nat)

  /** Where everything goes. An empty section has offset 0, and so has an empty list of relocations. */
  function PlanFrom(text: Section, data: Section, symbols: nat, strings: nat, relas: nat): Plan {
    var t := if |text.data| > 0 then Up(64, text.align) else 0;
    var tEnd := if |text.data| > 0 then t + |text.data| else 64;
    var d := if |data.data| > 0 then Up(tEnd, data.align) else 0;
    var dEnd := if |data.data| > 0 then d + |data.data| else tEnd;
    var symtab := Up(dEnd, 8);
    var strtab := symtab + 24 * (symbols + 1);
    var shstrtab := strtab + strings;
    var headers := Up(shstrtab + |SECTION_NAMES|, 64);
    Plan(t, tEnd, d, dEnd, symtab, strtab, shstrtab, headers, if relas > 0 then headers + 512 else 0,
         headers + 512 + 24 * relas)
  }

  function PlanOf(text: Section, data: Section, symbols: seq<Symbol>, relocs: seq<Reloc>): Plan {
    PlanFrom(text, data, |symbols|, |Strings(symbols, |symbols|)|, |TextRelocs(relocs, |relocs|)|)
  }

  /** All ranges are aligned, disjoint, in the order of the plan, and inside the file. */
  lemma PlanIsSound(text: Section, data: Section, symbols: seq<Symbol>, relocs: seq<Reloc>)
    ensures var p, n := PlanOf(text, data, symbols, relocs), |TextRelocs(relocs, |relocs|)|;
      && (|text.data| > 0 ==>
            && 64 <= p.text && p.text + |text.data| == p.textEnd
            && (text.align > 0 ==> p.text % text.align == 0))
      && 64 <= p.textEnd
      && (|data.data| > 0 ==>
            && p.textEnd <= p.data && p.data + |data.data| == p.dataEnd
            && (data.align > 0 ==> p.data % data.align == 0))
      && p.textEnd <= p.dataEnd <= p.symtab && p.symtab % 8 == 0
      && p.symtab + |SymbolTable(symbols)| == p.strtab
      && p.strtab + |Strings(symbols, |symbols|)| == p.shstrtab
      && p.shstrtab + |SECTION_NAMES| <= p.headers && p.headers % 64 == 0
      && (n > 0 ==> p.headers + 512 == p.rela && p.rela % 8 == 0 && p.rela + 24 * n == p.end)
      && p.headers + 512 <= p.end
  {
    var p := PlanOf(text, data, symbols, relocs);
    Multiple(p.headers);
  }

  lemma Multiple(x: nat)
    requires x % 64 == 0
    ensures (x + 512) % 8 == 0
  {
    assert x + 512 == (8 * (x / 64) + 64) * 8;
  }

  // ---------------------------------------------------------------- the file

  ghost predicate HasContents(file: seq<byte>, p: Plan, text: seq<byte>, data: seq<byte>, symbols: seq<Symbol>) {
    && (|text| > 0 ==> Holds(file, p.text, text)) && (|data| > 0 ==> Holds(file, p.data, data))
    && Holds(file, p.symtab, SymbolTable(symbols)) && Holds(file, p.strtab, Strings(symbols, |symbols|))
    && Holds(file, p.shstrtab, SECTION_NAMES)
  }

  /** Everything is where the plan says. */
  ghost predicate IsObject(file: seq<byte>, machine: nat, text: Section, data: Section, bss: Section,
                           symbols: seq<Symbol>, relocs: seq<Reloc>, places: seq<nat>)
  {
    var p, r := PlanOf(text, data, symbols, relocs), TextRelocs(relocs, |relocs|);
    && PlacesOk(symbols, places) && (forall k {:trigger r[k]} :: 0 <= k < |r| ==> r[k].sym < |places|)
    && |file| == p.end
    && Holds(file, 0, FileHeader(machine, p.headers))
    && HasContents(file, p, text.data, data.data, symbols)
    && Holds(file, p.headers, HeaderTable(Headers(text, data, bss, symbols, relocs)))
    && (|r| > 0 ==> Holds(file, p.rela, Relas(r, places, |r|)))
  }
}
