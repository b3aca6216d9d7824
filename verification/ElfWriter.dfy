/** The writer of ELF64 relocatable objects: it appends the pieces to a buffer from a pool, leaves room for the symbol
    table and the section headers, and fills these in afterwards. */
module ElfWriter {
  import opened Bytes
  import opened ElfSymbols
  import opened ElfLayout

  method AlignOut(out: seq<byte>, align: nat) returns (r: seq<byte>)
    ensures r == out + Zeros(Up(|out|, align) - |out|)
  {
    r := out;
    if align == 0 {
      return;
    }
    var pad := (align - |out| % align) % align;
    for i := 0 to pad
      invariant r == out + Zeros(i)
    {
      r := r + [0];
    }
  }

  // ---------------------------------------------------------------- numbers and records

  lemma {:induction false} PutLESuffix(v: nat, n: nat, w: nat, k: nat)
    requires k < n && PutLE(v, n)[k..] == PutLE(w, n - k)
    ensures PutLE(v, n)[k] == w % 256 && PutLE(v, n)[k + 1..] == PutLE(w / 256, n - k - 1)
  {
    var s := PutLE(v, n);
    assert s[k] == s[k..][0] && s[k + 1..] == s[k..][1..];
  }

  /** A number over `n` bytes of the buffer, the low byte first. */
  method WriteAt(out: seq<byte>, at: nat, v: nat, n: nat) returns (r: seq<byte>)
    requires at + n <= |out|
    ensures r == Patch(out, at, PutLE(v, n))
  {
    r := out;
    var w := v;
    ghost var bytes := PutLE(v, n);
    for k := 0 to n
      invariant r == Patch(out, at, bytes[..k]) && bytes[k..] == PutLE(w, n - k)
    {
      PutLESuffix(v, n, w, k);
      PatchTwice(out, at, bytes[..k], [w % 256]);
      assert bytes[..k] + [w % 256] == bytes[..k + 1];
      r := r[at + k := w % 256];
      w := w / 256;
    }
    assert bytes[..n] == bytes;
  }

  /** A field behind those already written is one more part of the record. */
  method WriteNext(out: seq<byte>, at: nat, v: nat, n: nat, ghost start: seq<byte>, ghost base: nat,
                   ghost done: seq<byte>)
    returns (r: seq<byte>, ghost more: seq<byte>)
    requires at == base + |done| && at + n <= |start| && out == Patch(start, base, done)
    ensures more == done + PutLE(v, n) && r == Patch(start, base, more)
  {
    r := WriteAt(out, at, v, n);
    PatchTwice(start, base, done, PutLE(v, n));
    more := done + PutLE(v, n);
  }

  method WriteSymbol(out: seq<byte>, off: nat, s: Symbol) returns (r: seq<byte>)
    requires off + 24 <= |out|
    ensures r == Patch(out, off, SymbolBytes(s))
  {
    ghost var b := [];
    assert out == Patch(out, off, b);
    r, b := WriteNext(out, off, s.nameOffset, 4, out, off, b);
    r, b := WriteNext(r, off + 4, s.bind * 16 + s.typ, 1, out, off, b);
    r, b := WriteNext(r, off + 5, 0, 1, out, off, b);
    r, b := WriteNext(r, off + 6, s.shndx, 2, out, off, b);
    r, b := WriteNext(r, off + 8, s.value, 8, out, off, b);
    r, b := WriteNext(r, off + 16, 0, 8, out, off, b);
    assert [] + PutLE(s.nameOffset, 4) == PutLE(s.nameOffset, 4);
  }

  method WriteSection(out: seq<byte>, off: nat, h: SectionHeader) returns (r: seq<byte>)
    requires off + 64 <= |out|
    ensures r == Patch(out, off, HeaderBytes(h))
  {
    ghost var b := [];
    assert out == Patch(out, off, b);
    r, b := WriteNext(out, off, h.name, 4, out, off, b);
    r, b := WriteNext(r, off + 4, h.typ, 4, out, off, b);
    r, b := WriteNext(r, off + 8, h.flags, 8, out, off, b);
    r, b := WriteNext(r, off + 16, h.addr, 8, out, off, b);
    r, b := WriteNext(r, off + 24, h.offset, 8, out, off, b);
    r, b := WriteNext(r, off + 32, h.size, 8, out, off, b);
    r, b := WriteNext(r, off + 40, h.link, 4, out, off, b);
    r, b := WriteNext(r, off + 44, h.info, 4, out, off, b);
    r, b := WriteNext(r, off + 48, h.align, 8, out, off, b);
    r, b := WriteNext(r, off + 56, h.entsize, 8, out, off, b);
    assert [] + PutLE(h.name, 4) == PutLE(h.name, 4);
  }

  method WriteFileHeader(out: seq<byte>, machine: nat, shoff: nat) returns (r: seq<byte>)
    requires 64 <= |out|
    ensures r == Patch(out, 0, FileHeader(machine, shoff))
  {
    ghost var b := IDENT;
    r := IDENT + out[16..];
    assert r == Patch(out, 0, IDENT);
    r, b := WriteNext(r, 16, 1, 2, out, 0, b);
    r, b := WriteNext(r, 18, machine, 2, out, 0, b);
    r, b := WriteNext(r, 20, 1, 4, out, 0, b);
    r, b := WriteNext(r, 24, 0, 8, out, 0, b);
    r, b := WriteNext(r, 32, 0, 8, out, 0, b);
    r, b := WriteNext(r, 40, shoff, 8, out, 0, b);
    r, b := WriteNext(r, 48, 0, 4, out, 0, b);
    r, b := WriteNext(r, 52, 64, 2, out, 0, b);
    r, b := WriteNext(r, 54, 0, 2, out, 0, b);
    r, b := WriteNext(r, 56, 0, 2, out, 0, b);
    r, b := WriteNext(r, 58, 64, 2, out, 0, b);
    r, b := WriteNext(r, 60, 8, 2, out, 0, b);
    r, b := WriteNext(r, 62, 4, 2, out, 0, b);
  }

  // ---------------------------------------------------------------- symbols

  /** Names into the string table; each symbol learns where its name begins, modulo 32 bits. */
  method WriteNames(out: seq<byte>, symbols: seq<Symbol>) returns (r: seq<byte>, named: seq<Symbol>)
    ensures r == out + Strings(symbols, |symbols|) && named == Named(symbols, |symbols|)
  {
    r, named := out + [0], symbols;
    for i := 0 to |symbols|
      invariant r == out + Strings(symbols, i) && named == Named(symbols, i)
    {
      named := named[i := named[i].(nameOffset := (|r| - |out|) % 0x1_0000_0000)];
      r := r + symbols[i].name;
      r := r + [0];
      assert r == out + (Strings(symbols, i) + (symbols[i].name + [0]));
    }
  }

  /** The entries of the local symbols, or of the others. */
  method WriteChosen(out: seq<byte>, off: nat, symbols: seq<Symbol>, local: bool) returns (r: seq<byte>, end: nat)
    requires off + 24 * |Chosen(symbols, local, |symbols|)| <= |out|
    ensures end == off + 24 * |Chosen(symbols, local, |symbols|)|
    ensures r == Patch(out, off, ChosenBytes(symbols, local, |symbols|))
  {
    r, end := out, off;
    assert out == Patch(out, off, []);
    for i := 0 to |symbols|
      invariant |Chosen(symbols, local, i)| <= |Chosen(symbols, local, |symbols|)|
      invariant end == off + 24 * |Chosen(symbols, local, i)|
      invariant r == Patch(out, off, ChosenBytes(symbols, local, i))
    {
      ChosenGrow(symbols, local, i + 1, |symbols|);
      if (symbols[i].bind == LOCAL) != local {
        assert ChosenParts(symbols, local, i) + [] == ChosenParts(symbols, local, i);
        continue;
      }
      FlatMore(ChosenParts(symbols, local, i), SymbolBytes(symbols[i]));
      r := WriteEntry(r, end, symbols[i], out, off, ChosenBytes(symbols, local, i));
      end := end + 24;
    }
  }

  /** One more entry behind those written. */
  method WriteEntry(out: seq<byte>, end: nat, s: Symbol, ghost start: seq<byte>, ghost off: nat, ghost done: seq<byte>)
    returns (r: seq<byte>)
    requires end == off + |done| && end + 24 <= |start| && out == Patch(start, off, done)
    ensures r == Patch(start, off, done + SymbolBytes(s))
  {
    PatchTwice(start, off, done, SymbolBytes(s));
    r := WriteSymbol(out, end, s);
  }

  lemma {:induction false} ChosenGrow(symbols: seq<Symbol>, local: bool, n: nat, m: nat)
    requires n <= m <= |symbols|
    ensures |Chosen(symbols, local, n)| <= |Chosen(symbols, local, m)|
  {
    if n < m {
      ChosenGrow(symbols, local, n, m - 1);
    }
  }

  /** The whole symbol table over the room left for it. */
  method WriteSymbols(out: seq<byte>, base: nat, symbols: seq<Symbol>) returns (r: seq<byte>)
    requires base + 24 * (|symbols| + 1) <= |out|
    ensures r == Patch(out, base, SymbolTable(symbols))
  {
    ChosenCount(symbols, |symbols|);
    NoSymbolIsZeros();
    r := WriteSymbol(out, base, NO_SYMBOL);
    var off;
    r, off := WriteChosen(r, base + 24, symbols, true);
    r, off := WriteChosen(r, off, symbols, false);
    PatchThrice(out, base, Zeros(24), ChosenBytes(symbols, true, |symbols|), ChosenBytes(symbols, false, |symbols|));
  }

  lemma PatchThrice(file: seq<byte>, at: nat, a: seq<byte>, b: seq<byte>, c: seq<byte>)
    requires at + |a| + |b| + |c| <= |file|
    ensures Patch(Patch(Patch(file, at, a), at + |a|, b), at + |a| + |b|, c) == Patch(file, at, a + (b + c))
  {
    PatchTwice(file, at, a, b);
    PatchTwice(file, at, a + b, c);
    assert a + b + c == a + (b + c);
  }

  // ---------------------------------------------------------------- relocations

  /** Numbers the symbols of one kind, from `first` on. */
  method NumberChosen(symbols: seq<Symbol>, local: bool, before: seq<nat>, first: nat)
    returns (places: seq<nat>, next: nat)
    requires |before| == |symbols|
    ensures |places| == |symbols| && next == first + |Chosen(symbols, local, |symbols|)|
    ensures forall k {:trigger places[k]} :: 0 <= k < |symbols| ==>
      if (symbols[k].bind == LOCAL) == local then Numbered(Chosen(symbols, local, |symbols|), first, places[k], k)
      else places[k] == before[k]
  {
    places, next := before, first;
    for i := 0 to |symbols|
      invariant |places| == |symbols| && next == first + |Chosen(symbols, local, i)|
      invariant forall k {:trigger places[k]} :: 0 <= k < |symbols| ==>
        if k < i && (symbols[k].bind == LOCAL) == local
        then Numbered(Chosen(symbols, local, |symbols|), first, places[k], k)
        else places[k] == before[k]
    {
      if (symbols[i].bind == LOCAL) != local {
        continue;
      }
      ChosenHas(symbols, local, i);
      places := places[i := next];
      next := next + 1;
    }
  }

  /** Each symbol's place in the table: the locals are numbered first. */
  method NumberSymbols(symbols: seq<Symbol>) returns (places: seq<nat>)
    ensures PlacesOk(symbols, places)
  {
    ChosenCount(symbols, |symbols|);
    var index;
    places, index := NumberChosen(symbols, true, seq(|symbols|, _ => 0), 1);
    places, index := NumberChosen(symbols, false, places, index);
  }

  ghost predicate Numbered(chosen: seq<nat>, first: nat, place: nat, i: nat) {
    first <= place < first + |chosen| && chosen[place - first] == i
  }

  /** A symbol of the kind stands behind those before it. */
  lemma ChosenHas(symbols: seq<Symbol>, local: bool, i: nat)
    requires i < |symbols| && (symbols[i].bind == LOCAL) == local
    ensures var at, all := |Chosen(symbols, local, i)|, Chosen(symbols, local, |symbols|); at < |all| && all[at] == i
  {
    ChosenIsPrefix(symbols, local, i + 1);
    var some, all := Chosen(symbols, local, i + 1), Chosen(symbols, local, |symbols|);
    assert some[|some| - 1] == i;
    assert all[..|some|][|some| - 1] == i;
  }

  lemma {:induction false} ChosenIsPrefix(symbols: seq<Symbol>, local: bool, n: nat)
    requires n <= |symbols|
    ensures var some, all := Chosen(symbols, local, n), Chosen(symbols, local, |symbols|);
      |some| <= |all| && all[..|some|] == some
    decreases |symbols| - n
  {
    if n < |symbols| {
      ChosenIsPrefix(symbols, local, n + 1);
      var some, more := Chosen(symbols, local, n), Chosen(symbols, local, n + 1);
      assert more[..|some|] == some;
      assert Chosen(symbols, local, |symbols|)[..|more|][..|some|] == Chosen(symbols, local, |symbols|)[..|some|];
    }
  }

  method AppendNumber(out: seq<byte>, v: nat, n: nat) returns (r: seq<byte>)
    ensures r == out + PutLE(v, n)
  {
    r := out;
    var w := v;
    ghost var bytes := PutLE(v, n);
    for k := 0 to n
      invariant r == out + bytes[..k] && bytes[k..] == PutLE(w, n - k)
    {
      PutLESuffix(v, n, w, k);
      assert bytes[..k] + [w % 256] == bytes[..k + 1];
      r := r + [w % 256];
      w := w / 256;
    }
    assert bytes[..n] == bytes;
  }

  method AppendRela(out: seq<byte>, r: Reloc, sym: nat) returns (after: seq<byte>)
    ensures after == out + RelaBytes(r, sym)
  {
    after := AppendNumber(out, r.off, 8);
    after := AppendNumber(after, sym * 0x1_0000_0000 + r.typ, 8);
    after := AppendNumber(after, Unsigned(r.addend), 8);
    Gather(out, PutLE(r.off, 8), PutLE(sym * 0x1_0000_0000 + r.typ, 8), PutLE(Unsigned(r.addend), 8));
  }

  lemma Gather(a: seq<byte>, b: seq<byte>, c: seq<byte>, d: seq<byte>)
    ensures a + b + c + d == a + (b + c + d) && a + b + c == a + (b + c)
  {
  }

  method CountTextRelocs(relocs: seq<Reloc>) returns (count: nat)
    ensures count == |TextRelocs(relocs, |relocs|)|
  {
    count := 0;
    for i := 0 to |relocs|
      invariant count == |TextRelocs(relocs, i)|
    {
      if relocs[i].sec == 1 {
        count := count + 1;
      }
    }
  }

  lemma {:induction false} RelasMore(r: seq<Reloc>, x: Reloc, places: seq<nat>, n: nat)
    requires n <= |r| && x.sym < |places| && forall k {:trigger r[k]} :: 0 <= k < |r| ==> r[k].sym < |places|
    ensures Relas(r + [x], places, n) == Relas(r, places, n)
    ensures n == |r| ==> Relas(r + [x], places, n + 1) == Relas(r, places, n) + RelaBytes(x, places[x.sym])
  {
    if n > 0 {
      RelasMore(r, x, places, n - 1);
    }
  }

  method AppendRelas(out: seq<byte>, relocs: seq<Reloc>, places: seq<nat>) returns (after: seq<byte>)
    requires forall i {:trigger relocs[i]} :: 0 <= i < |relocs| ==> RelocFits(relocs[i], |places|)
    ensures var r := TextRelocs(relocs, |relocs|);
      (forall k {:trigger r[k]} :: 0 <= k < |r| ==> r[k].sym < |places|) && after == out + Relas(r, places, |r|)
  {
    after := out;
    ghost var done := [];
    for i := 0 to |relocs|
      invariant done == TextRelocs(relocs, i)
      invariant forall k {:trigger done[k]} :: 0 <= k < |done| ==> done[k].sym < |places|
      invariant after == out + Relas(done, places, |done|)
    {
      assert RelocFits(relocs[i], |places|);
      if relocs[i].sec != 1 {
        continue;
      }
      RelasMore(done, relocs[i], places, |done|);
      Gather(out, Relas(done, places, |done|), RelaBytes(relocs[i], places[relocs[i].sym]), []);
      after := AppendRela(after, relocs[i], places[relocs[i].sym]);
      done := done + [relocs[i]];
    }
  }

  // ---------------------------------------------------------------- section headers

  predicate MatchBytes(data: seq<byte>, pattern: seq<byte>) {
    |data| >= |pattern| && data[..|pattern|] == pattern
  }

  /** Looks for a name among the section names. */
  method OffsetOfName(name: seq<byte>, table: seq<byte>) returns (r: nat)
    requires name != []
    ensures r == NameAt(table, name, 0)
  {
    var i := 0;
    while i + |name| <= |table|
      invariant i <= |table| && NameAt(table, name, 0) == NameAt(table, name, i)
    {
      if MatchBytes(table[i..i + |name|], name) {
        return i;
      }
      i := i + 1;
    }
    return 0;
  }

  method WriteHeaders(out: seq<byte>, at: nat, h: seq<SectionHeader>) returns (r: seq<byte>)
    requires at + 64 * |h| <= |out|
    ensures r == Patch(out, at, HeaderTable(h))
  {
    r := out;
    assert out == Patch(out, at, []);
    for i := 0 to |h|
      invariant r == Patch(out, at, AllHeaderBytes(h, i))
    {
      PatchTwice(out, at, AllHeaderBytes(h, i), HeaderBytes(h[i]));
      r := WriteSection(r, at + 64 * i, h[i]);
    }
  }

  // ---------------------------------------------------------------- the object file

  /** One section behind the others, if it has any bytes. */
  method WriteData(out: seq<byte>, section: Section) returns (r: seq<byte>, offset: nat)
    ensures Extends(r, out)
    ensures |section.data| > 0 ==>
      offset == Up(|out|, section.align) && |r| == offset + |section.data| && Holds(r, offset, section.data)
    ensures |section.data| == 0 ==> r == out && offset == 0
  {
    r, offset := out, 0;
    if |section.data| > 0 {
      r := AlignOut(r, section.align);
      offset := |r|;
      AppendHolds(r, section.data);
      ghost var aligned := r;
      r := r + section.data;
      ExtendsTwice(out, aligned, r);
    }
  }

  /** Room for the file header, then the two sections. */
  method WriteBody(text: Section, data: Section, ghost symbols: nat, ghost strings: nat, ghost relas: nat)
    returns (out: seq<byte>, textOffset: nat, dataOffset: nat)
    ensures var p := PlanFrom(text, data, symbols, strings, relas);
      && |out| == p.symtab && textOffset == p.text && dataOffset == p.data
      && (|text.data| > 0 ==> Holds(out, p.text, text.data))
      && (|data.data| > 0 ==> Holds(out, p.data, data.data))
  {
    out := Zeros(64);
    out, textOffset := WriteData(out, text);
    ghost var first := out;
    out, dataOffset := WriteData(out, data);
    ghost var second := out;
    out := AlignOut(out, 8);
    ExtendsTwice(first, second, out);
    if |text.data| > 0 {
      ExtendsHolds(out, first, textOffset, text.data);
    }
    if |data.data| > 0 {
      ExtendsHolds(out, second, dataOffset, data.data);
    }
  }

  ghost predicate Extends(big: seq<byte>, small: seq<byte>) {
    |small| <= |big| && big[..|small|] == small
  }

  lemma ExtendsHolds(big: seq<byte>, small: seq<byte>, at: nat, piece: seq<byte>)
    requires Extends(big, small) && Holds(small, at, piece)
    ensures Holds(big, at, piece)
  {
    assert big[..|small|][at..at + |piece|] == big[at..at + |piece|];
  }

  lemma AppendHolds(out: seq<byte>, piece: seq<byte>)
    ensures Extends(out + piece, out) && Holds(out + piece, |out|, piece)
  {
  }

  lemma ExtendsTwice(a: seq<byte>, b: seq<byte>, c: seq<byte>)
    requires Extends(b, a) && Extends(c, b)
    ensures Extends(c, a)
  {
    assert c[..|a|] == c[..|b|][..|a|];
  }

  /** A table put over stale bytes, between what is before and what is behind. */
  lemma TableStands(out: seq<byte>, stale: seq<byte>, strings: seq<byte>, table: seq<byte>, names: seq<byte>)
    requires |stale| == |table|
    ensures var r := Patch(out + stale + strings, |out|, table) + names;
      && Extends(r, out) && |r| == |out| + |table| + |strings| + |names|
      && Holds(r, |out|, table) && Holds(r, |out| + |table|, strings)
      && Holds(r, |out| + |table| + |strings|, names)
  {
    assert Patch(out + stale + strings, |out|, table) == out + table + strings;
  }

  /** The symbol table over whatever bytes the pooled buffer has at its end, and the two string tables behind. */
  method WriteTables(out: seq<byte>, symbols: seq<Symbol>) returns (r: seq<byte>, named: seq<Symbol>)
    ensures named == Named(symbols, |symbols|) && Extends(r, out)
    ensures var strtab := |out| + 24 * (|symbols| + 1); var shstrtab := strtab + |Strings(symbols, |symbols|)|;
      && |r| == shstrtab + |SECTION_NAMES|
      && Holds(r, |out|, SymbolTable(named)) && Holds(r, strtab, Strings(named, |named|))
      && Holds(r, shstrtab, SECTION_NAMES)
  {
    var size := 24 * (|symbols| + 1);
    assert |Zeros(size)| == size;
    var stale: seq<byte> :| |stale| == size;
    r, named := WriteNames(out + stale, symbols);
    SameNames(symbols, named, |named|);
    r := WriteSymbols(r, |out|, named);
    TableStands(out, stale, Strings(symbols, |symbols|), SymbolTable(named), SECTION_NAMES);
    r := r + SECTION_NAMES;
  }

  /** `alignOutOffset` clears the low six bits of the offset plus 63. */
  function UpTo64(offset: nat): nat {
    (offset + 63) / 64 * 64
  }

  lemma UpTo64IsUp(offset: nat)
    ensures UpTo64(offset) == Up(offset, 64)
  {
    var q, m := offset / 64, offset % 64;
    if m == 0 {
      assert (offset + 63) / 64 == q;
    } else {
      assert (offset + 63) / 64 == q + 1;
    }
  }

  method SectionHeaders(text: Section, data: Section, bss: Section, symbols: seq<Symbol>, relocs: seq<Reloc>,
                        textOffset: nat, dataOffset: nat, symtabOffset: nat, strtabOffset: nat, strtabSize: nat,
                        shstrtabOffset: nat, relaOffset: nat, relaSize: nat) returns (h: seq<SectionHeader>)
    requires var p := PlanOf(text, data, symbols, relocs);
      && textOffset == p.text && dataOffset == p.data && symtabOffset == p.symtab && strtabOffset == p.strtab
      && strtabSize == |Strings(symbols, |symbols|)| && shstrtabOffset == p.shstrtab && relaOffset == p.rela
      && relaSize == 24 * |TextRelocs(relocs, |relocs|)|
    ensures h == Headers(text, data, bss, symbols, relocs)
  {
    var textName := OffsetOfName(TEXT, SECTION_NAMES);
    var dataName := OffsetOfName(DATA, SECTION_NAMES);
    var bssName := OffsetOfName(BSS, SECTION_NAMES);
    var shstrtabName := OffsetOfName(SHSTRTAB, SECTION_NAMES);
    var symtabName := OffsetOfName(SYMTAB, SECTION_NAMES);
    var strtabName := OffsetOfName(STRTAB, SECTION_NAMES);
    var relaName := OffsetOfName(RELA_TEXT, SECTION_NAMES);
    var locals := CountLocals(symbols);
    h := [SectionHeader(0, 0, 0, 0, 0, 0, 0, 0, 0, 0),
          SectionHeader(textName, 1, text.flags, 0, textOffset, |text.data|, 0, 0, text.align, 0),
          SectionHeader(dataName, 1, data.flags, 0, dataOffset, |data.data|, 0, 0, data.align, 0),
          SectionHeader(bssName, 8, bss.flags, 0, 0, bss.size, 0, 0, bss.align, 0),
          SectionHeader(shstrtabName, 3, 0, 0, shstrtabOffset, |SECTION_NAMES|, 0, 0, 1, 0),
          SectionHeader(symtabName, 2, 0, 0, symtabOffset, 24 * (|symbols| + 1), 6, locals + 1, 8, 24),
          SectionHeader(strtabName, 3, 0, 0, strtabOffset, strtabSize, 0, 0, 1, 0),
          SectionHeader(relaName, 4, 0, 0, relaOffset, relaSize, 5, 1, 8, 24)];
  }

  method CountLocals(symbols: seq<Symbol>) returns (count: nat)
    ensures count == |Chosen(symbols, true, |symbols|)|
  {
    count := 0;
    for i := 0 to |symbols|
      invariant count == |Chosen(symbols, true, i)|
    {
      if symbols[i].bind == LOCAL {
        count := count + 1;
      }
    }
  }

  /** Sections and tables. */
  method WriteTabled(text: Section, data: Section, symbols: seq<Symbol>, ghost relas: nat)
    returns (out: seq<byte>, named: seq<Symbol>, textOffset: nat, dataOffset: nat, symtabOffset: nat)
    ensures named == Named(symbols, |symbols|)
    ensures var p := PlanFrom(text, data, |symbols|, |Strings(symbols, |symbols|)|, relas);
      && textOffset == p.text && dataOffset == p.data && symtabOffset == p.symtab
      && |out| == p.shstrtab + |SECTION_NAMES| && HasContents(out, p, text.data, data.data, named)
  {
    ghost var strings := |Strings(symbols, |symbols|)|;
    out, textOffset, dataOffset := WriteBody(text, data, |symbols|, strings, relas);
    symtabOffset := |out|;
    ghost var body := out;
    out, named := WriteTables(out, symbols);
    SameNames(symbols, named, |symbols|);
    if |text.data| > 0 {
      ExtendsHolds(out, body, textOffset, text.data);
    }
    if |data.data| > 0 {
      ExtendsHolds(out, body, dataOffset, data.data);
    }
  }

  lemma ContentsExtend(big: seq<byte>, small: seq<byte>, p: Plan, text: seq<byte>, data: seq<byte>,
                       symbols: seq<Symbol>)
    requires Extends(big, small) && HasContents(small, p, text, data, symbols)
    ensures HasContents(big, p, text, data, symbols)
  {
    if |text| > 0 {
      ExtendsHolds(big, small, p.text, text);
    }
    if |data| > 0 {
      ExtendsHolds(big, small, p.data, data);
    }
    ExtendsHolds(big, small, p.symtab, SymbolTable(symbols));
    ExtendsHolds(big, small, p.strtab, Strings(symbols, |symbols|));
    ExtendsHolds(big, small, p.shstrtab, SECTION_NAMES);
  }

  /** An empty place for the section headers. */
  method ReserveHeaders(out: seq<byte>) returns (r: seq<byte>, shOff: nat)
    ensures shOff == Up(|out|, 64) && |r| == shOff + 512 && Extends(r, out)
  {
    shOff := UpTo64(|out|);
    UpTo64IsUp(|out|);
    r := AlignOut(out, 64);
    r := r + Zeros(512);
  }

  /** A piece between the file header and the section headers, or behind these, survives their writing. */
  lemma HeadersKeep(out: seq<byte>, head: seq<byte>, shOff: nat, table: seq<byte>, at: nat, piece: seq<byte>)
    requires |head| == 64 && |table| == 512 && 64 <= shOff && shOff + 512 <= |out| && Holds(out, at, piece)
    requires 64 <= at && (at + |piece| <= shOff || shOff + 512 <= at)
    ensures Holds(Patch(Patch(out, 0, head), shOff, table), at, piece)
  {
    PatchKeeps(out, 0, head, at, piece);
    PatchKeeps(Patch(out, 0, head), shOff, table, at, piece);
  }

  /** The relocations of `.text` behind the section headers, if there are any. */
  method WriteRelas(out: seq<byte>, relocs: seq<Reloc>, places: seq<nat>)
    returns (r: seq<byte>, relaOffset: nat, relaSize: nat)
    requires |out| % 8 == 0 && forall i {:trigger relocs[i]} :: 0 <= i < |relocs| ==> RelocFits(relocs[i], |places|)
    ensures var some := TextRelocs(relocs, |relocs|);
      && (forall k {:trigger some[k]} :: 0 <= k < |some| ==> some[k].sym < |places|)
      && relaSize == 24 * |some| && relaOffset == (if |some| > 0 then |out| else 0)
      && |r| == |out| + relaSize && Extends(r, out)
      && (|some| > 0 ==> Holds(r, |out|, Relas(some, places, |some|)))
  {
    r, relaOffset, relaSize := out, 0, 0;
    TextRelocsFit(relocs, |relocs|, |places|);
    var count := CountTextRelocs(relocs);
    if count > 0 {
      r := AlignOut(r, 8);
      assert Up(|out|, 8) == |out| && r == out;
      relaOffset := |r|;
      r := AppendRelas(r, relocs, places);
      AppendHolds(out, Relas(TextRelocs(relocs, |relocs|), places, |TextRelocs(relocs, |relocs|)|));
      relaSize := count * 24;
    }
  }

  /** The file with everything but the two headers. */
  ghost predicate IsHeadless(out: seq<byte>, text: Section, data: Section, symbols: seq<Symbol>, relocs: seq<Reloc>,
                             places: seq<nat>)
  {
    var p, some := PlanOf(text, data, symbols, relocs), TextRelocs(relocs, |relocs|);
    && PlacesOk(symbols, places) && (forall k {:trigger some[k]} :: 0 <= k < |some| ==> some[k].sym < |places|)
    && |out| == p.end && HasContents(out, p, text.data, data.data, symbols)
    && (|some| > 0 ==> Holds(out, p.rela, Relas(some, places, |some|)))
  }

  /** With the two headers written over it, the file is complete. */
  lemma Complete(out: seq<byte>, machine: nat, text: Section, data: Section, bss: Section, symbols: seq<Symbol>,
                 relocs: seq<Reloc>, places: seq<nat>)
    requires IsHeadless(out, text, data, symbols, relocs, places)
    ensures var p := PlanOf(text, data, symbols, relocs);
      var table := HeaderTable(Headers(text, data, bss, symbols, relocs));
      && 64 <= p.headers && p.headers + 512 <= |out|
      && IsObject(Patch(Patch(out, 0, FileHeader(machine, p.headers)), p.headers, table), machine, text, data, bss,
                  symbols, relocs, places)
  {
    PlanIsSound(text, data, symbols, relocs);
    var p, some := PlanOf(text, data, symbols, relocs), TextRelocs(relocs, |relocs|);
    var head, table := FileHeader(machine, p.headers), HeaderTable(Headers(text, data, bss, symbols, relocs));
    ContentsKept(out, head, table, p, text.data, data.data, symbols);
    if |some| > 0 {
      HeadersKeep(out, head, p.headers, table, p.rela, Relas(some, places, |some|));
    }
    PatchHolds(out, 0, head);
    PatchKeeps(Patch(out, 0, head), p.headers, table, 0, head);
    PatchHolds(Patch(out, 0, head), p.headers, table);
  }

  lemma ContentsKept(out: seq<byte>, head: seq<byte>, table: seq<byte>, p: Plan, text: seq<byte>, data: seq<byte>,
                     symbols: seq<Symbol>)
    requires HasContents(out, p, text, data, symbols) && |head| == 64 && |table| == 512 && p.headers + 512 <= |out|
    requires |text| > 0 ==> 64 <= p.text && p.text + |text| <= p.headers
    requires |data| > 0 ==> 64 <= p.data && p.data + |data| <= p.headers
    requires 64 <= p.symtab && p.symtab + |SymbolTable(symbols)| <= p.headers
    requires 64 <= p.strtab && p.strtab + |Strings(symbols, |symbols|)| <= p.headers
    requires 64 <= p.shstrtab && p.shstrtab + |SECTION_NAMES| <= p.headers
    ensures HasContents(Patch(Patch(out, 0, head), p.headers, table), p, text, data, symbols)
  {
    if |text| > 0 {
      HeadersKeep(out, head, p.headers, table, p.text, text);
    }
    if |data| > 0 {
      HeadersKeep(out, head, p.headers, table, p.data, data);
    }
    HeadersKeep(out, head, p.headers, table, p.symtab, SymbolTable(symbols));
    HeadersKeep(out, head, p.headers, table, p.strtab, Strings(symbols, |symbols|));
    HeadersKeep(out, head, p.headers, table, p.shstrtab, SECTION_NAMES);
  }

  /** Behind the tables: room for the section headers, and the relocations. */
  method WriteEnd(out: seq<byte>, named: seq<Symbol>, relocs: seq<Reloc>)
    returns (r: seq<byte>, places: seq<nat>, shOff: nat, relaOffset: nat, relaSize: nat)
    requires forall i {:trigger relocs[i]} :: 0 <= i < |relocs| ==> RelocFits(relocs[i], |named|)
    ensures shOff == Up(|out|, 64) && Extends(r, out) && PlacesOk(named, places)
    ensures var some := TextRelocs(relocs, |relocs|);
      && (forall k {:trigger some[k]} :: 0 <= k < |some| ==> some[k].sym < |places|)
      && relaOffset == (if |some| > 0 then shOff + 512 else 0) && relaSize == 24 * |some|
      && |r| == shOff + 512 + relaSize
      && (|some| > 0 ==> Holds(r, relaOffset, Relas(some, places, |some|)))
  {
    r, shOff := ReserveHeaders(out);
    ghost var reserved := r;
    places := NumberSymbols(named);
    Multiple(shOff);
    r, relaOffset, relaSize := WriteRelas(r, relocs, places);
    ExtendsTwice(out, reserved, r);
  }

  /** The places behind the string tables. */
  lemma PlanEnd(text: Section, data: Section, symbols: seq<Symbol>, relocs: seq<Reloc>, tabled: nat, shOff: nat)
    requires tabled == PlanOf(text, data, symbols, relocs).shstrtab + |SECTION_NAMES| && shOff == Up(tabled, 64)
    ensures var p, n := PlanOf(text, data, symbols, relocs), |TextRelocs(relocs, |relocs|)|;
      && p.headers == shOff && p.rela == (if n > 0 then shOff + 512 else 0) && p.end == shOff + 512 + 24 * n
  {
  }

  /** Everything but the two headers. */
  method WriteAll(text: Section, data: Section, symbols: seq<Symbol>, relocs: seq<Reloc>)
    returns (out: seq<byte>, named: seq<Symbol>, places: seq<nat>, textOffset: nat, dataOffset: nat, symtabOffset: nat,
             shOff: nat, relaOffset: nat, relaSize: nat)
    requires forall i {:trigger relocs[i]} :: 0 <= i < |relocs| ==> RelocFits(relocs[i], |symbols|)
    ensures named == Named(symbols, |symbols|)
    ensures var p := PlanOf(text, data, named, relocs);
      && textOffset == p.text && dataOffset == p.data && symtabOffset == p.symtab && shOff == p.headers
      && relaOffset == p.rela && relaSize == 24 * |TextRelocs(relocs, |relocs|)|
    ensures IsHeadless(out, text, data, named, relocs, places)
  {
    ghost var some := TextRelocs(relocs, |relocs|);
    out, named, textOffset, dataOffset, symtabOffset := WriteTabled(text, data, symbols, |some|);
    SameNames(symbols, named, |symbols|);
    ghost var tabled := out;
    out, places, shOff, relaOffset, relaSize := WriteEnd(out, named, relocs);
    PlanEnd(text, data, named, relocs, |tabled|, shOff);
    ContentsExtend(out, tabled, PlanOf(text, data, named, relocs), text.data, data.data, named);
  }

  /** The object file of the assembled source. */
  method Emit(a: Assembler, machine: nat) returns (file: seq<byte>, ghost places: seq<nat>)
    requires a.Valid()
    modifies a`symbols
    ensures a.symbols == Named(old(a.symbols), |old(a.symbols)|)
    ensures IsObject(file, machine, a.text, a.data, a.bss, a.symbols, a.relocs, places)
  {
    var textOffset, dataOffset, symtabOffset, shOff, relaOffset, relaSize, named, numbers;
    file, named, numbers, textOffset, dataOffset, symtabOffset, shOff, relaOffset, relaSize :=
      WriteAll(a.text, a.data, a.symbols, a.relocs);
    a.symbols := named;
    places := numbers;
    var strtabOffset := symtabOffset + 24 * (|named| + 1);
    var strtabSize := StringsSize(named);
    var h := SectionHeaders(a.text, a.data, a.bss, named, a.relocs, textOffset, dataOffset, symtabOffset, strtabOffset,
                            strtabSize, strtabOffset + strtabSize, relaOffset, relaSize);
    Complete(file, machine, a.text, a.data, a.bss, named, a.relocs, places);
    file := WriteFileHeader(file, machine, shOff);
    file := WriteHeaders(file, shOff, h);
  }

  method StringsSize(symbols: seq<Symbol>) returns (n: nat)
    ensures n == |Strings(symbols, |symbols|)|
  {
    n := 1;
    for i := 0 to |symbols|
      invariant n == |Strings(symbols, i)|
    {
      n := n + |symbols[i].name| + 1;
    }
  }
}
