/** Writing an object file and reading it back. */
module ElfObject {
  import opened Wrappers
  import opened Bytes
  import opened ElfSymbols
  import opened ElfLayout
  import R = ElfReader
  import W = ElfWriter

  lemma {:induction false} NamedOffset(symbols: seq<Symbol>, n: nat, i: nat)
    requires i < n <= |symbols| && |Strings(symbols, |symbols|)| <= 0x1_0000_0000
    ensures Named(symbols, n)[i].nameOffset == |Strings(symbols, i)|
  {
    StringsGrow(symbols, i, |symbols|);
    if i < n - 1 {
      NamedOffset(symbols, n - 1, i);
    }
  }

  /** Naming changes nothing but the name offsets, so the symbols stay what they were. */
  lemma NamedIsOk(symbols: seq<Symbol>, relocs: seq<Reloc>)
    requires WellFormed(symbols, relocs) && R.NamesOk(symbols) && |Strings(symbols, |symbols|)| <= 0x1_0000_0000
    ensures var named := Named(symbols, |symbols|); WellFormed(named, relocs) && R.SymbolsOk(named)
  {
    var n := |symbols|;
    var named := Named(symbols, n);
    assert forall i {:trigger named[i]} :: 0 <= i < n ==> named[i] == symbols[i].(nameOffset := named[i].nameOffset);
    SameNames(symbols, named, n);
    forall i | 0 <= i < n
      ensures R.OffsetOk(named, i)
    {
      NamedOffset(symbols, n, i);
      SameNames(symbols, named, i);
    }
    assert R.NamesOk(named);
  }

  /** What `Emit` writes for a source whose names have no zero bytes: a reader gets back the sections, the symbols,
      locals first, and every relocation of `.text` against the place of its symbol. */
  lemma WrittenIsRead(file: seq<byte>, machine: nat, text: Section, data: Section, bss: Section, symbols: seq<Symbol>,
                      relocs: seq<Reloc>, places: seq<nat>)
    requires IsObject(file, machine, text, data, bss, Named(symbols, |symbols|), relocs, places)
    requires WellFormed(symbols, relocs) && R.NamesOk(symbols) && |Strings(symbols, |symbols|)| <= 0x1_0000_0000
    requires R.FieldsFit(machine, text, data, bss, symbols, relocs)
    ensures R.Read(file) == Some(R.ObjectOf(machine, text, data, bss, Named(symbols, |symbols|), relocs, places))
  {
    NamedIsOk(symbols, relocs);
    SameNames(symbols, Named(symbols, |symbols|), |symbols|);
    R.ObjectIsRead(file, machine, text, data, bss, Named(symbols, |symbols|), relocs, places);
  }

  /** The entry a relocation names is the very symbol it was recorded against. */
  lemma RelocationNamesItsSymbol(symbols: seq<Symbol>, places: seq<nat>, i: nat)
    requires PlacesOk(symbols, places) && i < |symbols|
    ensures 1 <= places[i] <= |symbols| && R.Wanted(symbols)[places[i]] == R.EntryOf(symbols[i])
  {
    assert 1 <= places[i] <= |symbols| && Order(symbols)[places[i] - 1] == i;
    R.WantedAt(symbols, places[i] - 1);
  }

  /** `sh_info` separates the local symbols from the others. */
  lemma LocalsFirst(symbols: seq<Symbol>, k: nat)
    requires k < |symbols|
    ensures var first := |Chosen(symbols, true, |symbols|)| + 1;
      R.Wanted(symbols)[k + 1].bind == 0 <==> k + 1 < first
  {
    ChosenCount(symbols, |symbols|);
    R.WantedAt(symbols, k);
    var count := |Chosen(symbols, true, |symbols|)|;
    var locals, others := Chosen(symbols, true, |symbols|), Chosen(symbols, false, |symbols|);
    assert Order(symbols)[k] == if k < count then locals[k] else others[k - count];
  }

  lemma {:induction false} RelaListAt(relocs: seq<Reloc>, places: seq<nat>, n: nat, k: nat)
    requires k < n <= |relocs| && forall j {:trigger relocs[j]} :: 0 <= j < n ==> relocs[j].sym < |places|
    ensures var r := relocs[k];
      R.RelaList(relocs, places, n)[k] == R.Relocation(r.off, places[r.sym], r.typ, r.addend)
  {
    if k < n - 1 {
      RelaListAt(relocs, places, n - 1, k);
    }
  }

  /** Every symbol stands at its place, no two at the same. */
  ghost predicate SymbolsStand(o: R.Object, symbols: seq<Symbol>, places: seq<nat>) {
    && |o.symbols| == |symbols| + 1 && |places| == |symbols|
    && (forall i {:trigger places[i]} :: 0 <= i < |symbols| ==>
          1 <= places[i] <= |symbols| && o.symbols[places[i]] == R.EntryOf(symbols[i]))
    && (forall i, j {:trigger places[i], places[j]} :: 0 <= i < j < |symbols| ==> places[i] != places[j])
  }

  ghost predicate LocalsStandFirst(o: R.Object) {
    forall j {:trigger o.symbols[j]} :: 0 < j < |o.symbols| ==> (o.symbols[j].bind == 0 <==> j < o.firstGlobal)
  }

  /** The relocation read is the one recorded, and the entry it names is that of the symbol it was recorded against. */
  ghost predicate NamesSymbol(o: R.Object, got: R.Relocation, r: Reloc, symbols: seq<Symbol>) {
    && r.sym < |symbols| && got.offset == r.off && got.typ == r.typ && got.addend == r.addend
    && got.sym < |o.symbols| && o.symbols[got.sym] == R.EntryOf(symbols[r.sym])
  }

  ghost predicate RelocsName(o: R.Object, some: seq<Reloc>, symbols: seq<Symbol>) {
    |o.relocs| == |some| && forall k {:trigger some[k]} :: 0 <= k < |some| ==>
      NamesSymbol(o, o.relocs[k], some[k], symbols)
  }

  /** The fields of the file header: a relocatable object of version 1 for the machine, without entry, program headers
      and flags; eight sections, the fifth holds their names. */
  ghost predicate HeadIs(h: R.FileHead, machine: nat) {
    h == R.FileHead([0x7f] + R.Ascii("ELF") + [2, 1, 1, 0, 0, 0, 0, 0, 0, 0, 0, 0], 1, machine, 1, 0, 0, h.shoff, 0, 64,
                    0, 0, 64, 8, 4)
  }

  /** Every field of a section header but the offset. */
  ghost predicate SectionIs(v: R.View, name: seq<byte>, typ: nat, flags: nat, size: nat, link: nat, info: nat,
                            align: nat, entsize: nat)
  {
    v == R.View(name, typ, flags, 0, v.offset, size, link, info, align, entsize)
  }

  /** The sections with their names, types, flags, sizes, links and alignments, as the gABI wants them: the symbol table
      links to its strings and tells the first symbol that is not local, the relocations link to the symbol table and
      apply to `.text`. */
  ghost predicate SectionsAre(s: seq<R.View>, text: Section, data: Section, bss: Section, strings: nat, symbols: nat,
                              firstGlobal: nat, relocs: nat)
  {
    && |s| == 8
    && SectionIs(s[0], [], 0, 0, 0, 0, 0, 0, 0)
    && SectionIs(s[1], R.Ascii(".text"), 1, text.flags, |text.data|, 0, 0, text.align, 0)
    && SectionIs(s[2], R.Ascii(".data"), 1, data.flags, |data.data|, 0, 0, data.align, 0)
    && SectionIs(s[3], R.Ascii(".bss"), 8, bss.flags, bss.size, 0, 0, bss.align, 0)
    && SectionIs(s[4], R.Ascii(".shstrtab"), 3, 0, |SECTION_NAMES|, 0, 0, 1, 0)
    && SectionIs(s[5], R.Ascii(".symtab"), 2, 0, 24 * symbols, 6, firstGlobal, 8, 24)
    && SectionIs(s[6], R.Ascii(".strtab"), 3, 0, strings, 0, 0, 1, 0)
    && SectionIs(s[7], R.Ascii(".rela.text"), 4, 0, 24 * relocs, 5, 1, 8, 24)
  }

  /** Contents and tables lie where their alignment wants them. */
  ghost predicate SectionsAligned(s: seq<R.View>, relocs: nat)
    requires |s| == 8
  {
    && (s[1].size > 0 && s[1].align > 0 ==> s[1].offset % s[1].align == 0)
    && (s[2].size > 0 && s[2].align > 0 ==> s[2].offset % s[2].align == 0)
    && s[5].offset % 8 == 0 && (relocs > 0 ==> s[7].offset % 8 == 0)
  }

  lemma SectionsAreRead(machine: nat, text: Section, data: Section, bss: Section, symbols: seq<Symbol>,
                        relocs: seq<Reloc>, places: seq<nat>, o: R.Object)
    requires forall k {:trigger TextRelocs(relocs, |relocs|)[k]} ::
      0 <= k < |TextRelocs(relocs, |relocs|)| ==> TextRelocs(relocs, |relocs|)[k].sym < |places|
    requires o == R.ObjectOf(machine, text, data, bss, symbols, relocs, places)
    ensures SectionsAre(o.sections, text, data, bss, |Strings(symbols, |symbols|)|, |o.symbols|, o.firstGlobal,
                        |o.relocs|)
  {
    R.SectionsNamed(text, data, bss, symbols, relocs);
    R.NamesAreSpelled();
    R.TablesAreSpelled();
    R.SymtabIsSpelled();
    R.RelaIsSpelled();
    assert R.NAMES[0] == TEXT && R.NAMES[1] == DATA && R.NAMES[2] == BSS && R.NAMES[3] == SHSTRTAB;
    assert R.NAMES[4] == SYMTAB && R.NAMES[5] == STRTAB && R.NAMES[6] == RELA_TEXT;
  }

  lemma SectionsAlign(machine: nat, text: Section, data: Section, bss: Section, symbols: seq<Symbol>,
                      relocs: seq<Reloc>, places: seq<nat>, o: R.Object)
    requires forall k {:trigger TextRelocs(relocs, |relocs|)[k]} ::
      0 <= k < |TextRelocs(relocs, |relocs|)| ==> TextRelocs(relocs, |relocs|)[k].sym < |places|
    requires o == R.ObjectOf(machine, text, data, bss, symbols, relocs, places)
    ensures |o.sections| == 8 && SectionsAligned(o.sections, |o.relocs|)
  {
    PlanIsSound(text, data, symbols, relocs);
  }

  /** What is read is what the assembler had: headers, sections, every symbol once and at its place, the locals first,
      and the relocations of `.text`, each naming the symbol it was recorded against. */
  ghost predicate Describes(o: R.Object, machine: nat, text: Section, data: Section, bss: Section,
                            symbols: seq<Symbol>, relocs: seq<Reloc>, places: seq<nat>)
  {
    && HeadIs(o.head, machine)
    && SectionsAre(o.sections, text, data, bss, |Strings(symbols, |symbols|)|, |symbols| + 1, o.firstGlobal, |o.relocs|)
    && SectionsAligned(o.sections, |o.relocs|)
    && o.text == text.data && o.data == data.data && o.bssSize == bss.size
    && SymbolsStand(o, symbols, places) && LocalsStandFirst(o)
    && RelocsName(o, TextRelocs(relocs, |relocs|), symbols)
  }

  lemma SymbolsAreRead(o: R.Object, symbols: seq<Symbol>, places: seq<nat>)
    requires PlacesOk(symbols, places) && o.symbols == R.Wanted(symbols)
    requires o.firstGlobal == |Chosen(symbols, true, |symbols|)| + 1
    ensures SymbolsStand(o, symbols, places) && LocalsStandFirst(o)
  {
    forall i | 0 <= i < |symbols|
      ensures 1 <= places[i] <= |symbols| && o.symbols[places[i]] == R.EntryOf(symbols[i])
    {
      RelocationNamesItsSymbol(symbols, places, i);
    }
    forall i, j | 0 <= i < j < |symbols|
      ensures places[i] != places[j]
    {
      assert Order(symbols)[places[i] - 1] == i && Order(symbols)[places[j] - 1] == j;
    }
    forall j | 0 < j < |o.symbols|
      ensures o.symbols[j].bind == 0 <==> j < o.firstGlobal
    {
      LocalsFirst(symbols, j - 1);
    }
  }

  lemma RelocsAreRead(o: R.Object, symbols: seq<Symbol>, places: seq<nat>, some: seq<Reloc>)
    requires PlacesOk(symbols, places) && o.symbols == R.Wanted(symbols)
    requires forall k {:trigger some[k]} :: 0 <= k < |some| ==> some[k].sym < |places|
    requires o.relocs == R.RelaList(some, places, |some|)
    ensures RelocsName(o, some, symbols)
  {
    forall k {:trigger some[k]} | 0 <= k < |some|
      ensures NamesSymbol(o, o.relocs[k], some[k], symbols)
    {
      RelaListAt(some, places, |some|, k);
      RelocationNamesItsSymbol(symbols, places, some[k].sym);
    }
  }

  lemma SameEntries(o: R.Object, a: seq<Symbol>, b: seq<Symbol>, some: seq<Reloc>, places: seq<nat>)
    requires |a| == |b| && forall i {:trigger a[i]} :: 0 <= i < |a| ==> R.EntryOf(a[i]) == R.EntryOf(b[i])
    requires SymbolsStand(o, a, places) && RelocsName(o, some, a)
    ensures SymbolsStand(o, b, places) && RelocsName(o, some, b)
  {
  }

  /** The state of an assembler whose object file can be read back: names have no zero bytes, and what is written fits
      the fields. */
  ghost predicate Readable(machine: nat, text: Section, data: Section, bss: Section, symbols: seq<Symbol>,
                           relocs: seq<Reloc>)
  {
    && R.NamesOk(symbols) && |Strings(symbols, |symbols|)| <= 0x1_0000_0000
    && R.FieldsFit(machine, text, data, bss, symbols, relocs)
  }

  lemma ObjectDescribes(machine: nat, text: Section, data: Section, bss: Section, symbols: seq<Symbol>,
                        relocs: seq<Reloc>, places: seq<nat>)
    requires WellFormed(symbols, relocs) && Readable(machine, text, data, bss, symbols, relocs)
    requires PlacesOk(Named(symbols, |symbols|), places)
    ensures var some := TextRelocs(relocs, |relocs|);
      && (forall k {:trigger some[k]} :: 0 <= k < |some| ==> some[k].sym < |places|)
      && Describes(R.ObjectOf(machine, text, data, bss, Named(symbols, |symbols|), relocs, places), machine, text, data,
                   bss, symbols, relocs, places)
  {
    var named, some := Named(symbols, |symbols|), TextRelocs(relocs, |relocs|);
    TextRelocsFit(relocs, |relocs|, |symbols|);
    assert forall k {:trigger some[k]} :: 0 <= k < |some| ==> RelocFits(some[k], |symbols|);
    var o := R.ObjectOf(machine, text, data, bss, named, relocs, places);
    SymbolsAreRead(o, named, places);
    RelocsAreRead(o, named, places, some);
    assert forall i {:trigger named[i]} :: 0 <= i < |symbols| ==> R.EntryOf(named[i]) == R.EntryOf(symbols[i]);
    SameEntries(o, named, symbols, some, places);
    SectionsAreRead(machine, text, data, bss, named, relocs, places, o);
    SectionsAlign(machine, text, data, bss, named, relocs, places, o);
    SameNames(symbols, named, |symbols|);
  }

  /** The relocations written are those of section 1, in their order, and all of them. */
  lemma {:induction false} TextRelocsAre(relocs: seq<Reloc>, n: nat) returns (at: seq<nat>)
    requires n <= |relocs|
    ensures |at| == |TextRelocs(relocs, n)|
    ensures forall k {:trigger at[k]} :: 0 <= k < |at| ==>
      at[k] < n && relocs[at[k]].sec == 1 && TextRelocs(relocs, n)[k] == relocs[at[k]]
    ensures forall j, k {:trigger at[j], at[k]} :: 0 <= j < k < |at| ==> at[j] < at[k]
    ensures forall i {:trigger i in at} :: 0 <= i < n && relocs[i].sec == 1 ==> i in at
  {
    if n == 0 {
      at := [];
    } else {
      var before := TextRelocsAre(relocs, n - 1);
      if relocs[n - 1].sec == 1 {
        at := before + [n - 1];
        assert at[|before|] == n - 1;
        forall i {:trigger i in at} | 0 <= i < n && relocs[i].sec == 1
          ensures i in at
        {
          assert i < n - 1 ==> i in before;
        }
      } else {
        at := before;
        assert forall i :: 0 <= i < n && relocs[i].sec == 1 ==> i < n - 1 && i in before;
      }
    }
  }

  /** Writing and reading back: the object read from the file written describes the state of the assembler. */
  method EmitAndRead(a: Assembler, machine: nat) returns (file: seq<byte>, ghost places: seq<nat>)
    requires a.Valid()
    modifies a`symbols
    ensures Readable(machine, a.text, a.data, a.bss, old(a.symbols), a.relocs) ==>
      && R.Read(file).Some?
      && Describes(R.Read(file).value, machine, a.text, a.data, a.bss, old(a.symbols), a.relocs, places)
  {
    ghost var symbols := a.symbols;
    file, places := W.Emit(a, machine);
    if Readable(machine, a.text, a.data, a.bss, symbols, a.relocs) {
      WrittenIsRead(file, machine, a.text, a.data, a.bss, symbols, a.relocs, places);
      ObjectDescribes(machine, a.text, a.data, a.bss, symbols, a.relocs, places);
    }
  }
}
