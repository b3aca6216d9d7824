/** The assembler state an object file is written from: sections, symbols and relocations, and the operations that
    enter symbols and refer to them. */
module ElfSymbols {
  import opened Bytes
  import opened Wrappers

  const CAPACITY: nat := 4096
  const WIDTH64: int := 0x1_0000_0000_0000_0000

  const UNDEFINED: nat := 0
  const LOCAL: nat := 0
  const GLOBAL: nat := 1
  const PC32: nat := 2

  /** ".text", ".data" and ".bss". */
  const TEXT: seq<byte> := [46, 116, 101, 120, 116]
  const DATA: seq<byte> := [46, 100, 97, 116, 97]
  const BSS: seq<byte> := [46, 98, 115, 115]

  datatype Section = Section(data: seq<byte>, size: nat, flags: nat, align: nat)

  datatype Symbol = Symbol(name: seq<byte>, nameOffset: nat, value: nat, shndx: nat, bind: nat, typ: nat)

  datatype Reloc = Reloc(sec: nat, off: nat, sym: nat, typ: nat, addend: int)

  datatype Current = InText | InData | InBss

  function IndexOf(c: Current): nat {
    match c
    case InText => 1
    case InData => 2
    case InBss => 3
  }

  ghost predicate DistinctNames(symbols: seq<Symbol>) {
    forall i, j {:trigger symbols[i], symbols[j]} :: 0 <= i < j < |symbols| ==> symbols[i].name != symbols[j].name
  }

  predicate SymbolFits(s: Symbol) {
    s.value < WIDTH64 && s.shndx < 0x1_0000 && s.bind <= 1 && s.typ == 0
  }

  predicate RelocFits(r: Reloc, n: nat) {
    r.sym < n && r.off < WIDTH64 && r.typ < 0x1_0000_0000 && -WIDTH64 / 2 <= r.addend < WIDTH64 / 2
  }

  ghost predicate WellFormed(symbols: seq<Symbol>, relocs: seq<Reloc>) {
    && |symbols| <= CAPACITY && DistinctNames(symbols)
    && (forall i {:trigger symbols[i]} :: 0 <= i < |symbols| ==> SymbolFits(symbols[i]))
    && (forall i {:trigger relocs[i]} :: 0 <= i < |relocs| ==> RelocFits(relocs[i], |symbols|))
  }

  /** The place of a name, or -1. */
  function Find(symbols: seq<Symbol>, name: seq<byte>, from: nat): (r: int)
    requires from <= |symbols|
    ensures -1 <= r < |symbols| && (r >= 0 ==> from <= r && symbols[r].name == name)
    ensures r < 0 ==> forall i {:trigger symbols[i]} :: from <= i < |symbols| ==> symbols[i].name != name
    decreases |symbols| - from
  {
    if from == |symbols| then -1
    else if symbols[from].name == name then from
    else Find(symbols, name, from + 1)
  }

  /** The table after entering a symbol: a definition replaces place and value, `global` sticks, and a reference
      changes nothing. No place is returned when the table is full. */
  function Entered(symbols: seq<Symbol>, name: seq<byte>, value: nat, shndx: nat, bind: nat): (r: (seq<Symbol>, bool)) {
    var i := Find(symbols, name, 0);
    if i >= 0 then
      var moved := if shndx != UNDEFINED then symbols[i].(value := value, shndx := shndx) else symbols[i];
      (symbols[i := if bind == GLOBAL then moved.(bind := GLOBAL) else moved], true)
    else if |symbols| >= CAPACITY then (symbols, false)
    else (symbols + [Symbol(name, 0, value, shndx, bind, 0)], true)
  }

  /** Entering a symbol keeps the table well formed and every place in it: what an index meant it still means. */
  lemma EnteredKeeps(symbols: seq<Symbol>, relocs: seq<Reloc>, name: seq<byte>, value: nat, shndx: nat, bind: nat)
    requires WellFormed(symbols, relocs) && value < WIDTH64 && shndx < 0x1_0000 && bind <= 1
    ensures var (after, ok) := Entered(symbols, name, value, shndx, bind);
      && WellFormed(after, relocs) && |symbols| <= |after|
      && (forall i {:trigger after[i]} :: 0 <= i < |symbols| ==> after[i].name == symbols[i].name)
      && (ok <==> Find(symbols, name, 0) >= 0 || |symbols| < 4096)
      && (ok ==> 0 <= Find(after, name, 0) < |after| && after[Find(after, name, 0)].name == name)
  {
    var (after, ok) := Entered(symbols, name, value, shndx, bind);
    if ok {
      var i := Find(symbols, name, 0);
      assert after[if i >= 0 then i else |symbols|].name == name;
    }
  }

  // ---------------------------------------------------------------- any operations

  /** A label at an offset of a section, a `global` line, or a jump to a name. */
  datatype Operation =
    | Label(name: seq<byte>, value: nat, section: Current)
    | Global(name: seq<byte>)
    | Jump(name: seq<byte>)

  /** The table after an operation, and whether it was carried out. */
  function Done(symbols: seq<Symbol>, o: Operation): (r: (seq<Symbol>, bool)) {
    match o
    case Label(name, value, section) =>
      if name == [] then (symbols, false) else Entered(symbols, name, value, IndexOf(section), LOCAL)
    case Global(name) => if name == [] then (symbols, false) else Entered(symbols, name, 0, UNDEFINED, GLOBAL)
    case Jump(name) => Entered(symbols, name, 0, UNDEFINED, LOCAL)
  }

  function Table(ops: seq<Operation>): seq<Symbol> {
    if ops == [] then [] else Done(Table(ops[..|ops| - 1]), ops[|ops| - 1]).0
  }

  datatype Definition = Definition(value: nat, section: Current)

  /** Where the name was last defined. */
  function LastLabel(ops: seq<Operation>, name: seq<byte>): Option<Definition> {
    if ops == [] then None
    else
      var o := ops[|ops| - 1];
      if o.Label? && o.name == name then Some(Definition(o.value, o.section)) else LastLabel(ops[..|ops| - 1], name)
  }

  /** An operation that names a symbol; a label or a `global` line without a name does nothing. */
  predicate Mentions(o: Operation, name: seq<byte>) {
    o.name == name && (o.Jump? || name != [])
  }

  /** What a symbol stands for after the operations: it is global exactly if there was a `global` line for it, and it
      has place and section of its last label; without one it is undefined. */
  ghost predicate Means(s: Symbol, ops: seq<Operation>) {
    && s.typ == 0
    && s.bind == (if s.name != [] && Global(s.name) in ops then 1 else 0)
    && (var d := if s.name == [] then None else LastLabel(ops, s.name);
        if d.None? then s.value == 0 && s.shndx == 0
        else
          && s.value == d.value.value
          && s.shndx == if d.value.section.InText? then 1 else if d.value.section.InData? then 2 else 3)
  }

  ghost predicate Mentioned(ops: seq<Operation>, name: seq<byte>) {
    exists k :: 0 <= k < |ops| && Mentions(ops[k], name)
  }

  /** No label and no `global` line for the name. */
  lemma {:induction false} UnnamedIsNothing(ops: seq<Operation>, name: seq<byte>)
    requires !Mentioned(ops, name) && name != []
    ensures LastLabel(ops, name) == None && Global(name) !in ops
  {
    forall k | 0 <= k < |ops|
      ensures !Mentions(ops[k], name)
    {
    }
    if ops != [] {
      var before := ops[..|ops| - 1];
      assert !Mentions(ops[|ops| - 1], name);
      forall k | 0 <= k < |before|
        ensures !Mentions(before[k], name)
      {
        assert !Mentions(ops[k], name);
      }
      UnnamedIsNothing(before, name);
      assert ops == before + [ops[|ops| - 1]];
    }
  }

  lemma NamedAfter(ops: seq<Operation>, o: Operation, name: seq<byte>)
    ensures Mentioned(ops + [o], name) <==> Mentioned(ops, name) || Mentions(o, name)
  {
    var all := ops + [o];
    if k :| 0 <= k < |ops| && Mentions(ops[k], name) {
      assert Mentions(all[k], name);
    }
    if Mentions(o, name) {
      assert Mentions(all[|ops|], name);
    }
    if k :| 0 <= k < |all| && Mentions(all[k], name) {
      assert k < |ops| ==> Mentions(ops[k], name);
    }
  }

  ghost predicate TableIs(table: seq<Symbol>, ops: seq<Operation>) {
    && |table| <= 4096 && DistinctNames(table)
    && (forall i {:trigger table[i]} :: 0 <= i < |table| ==> Means(table[i], ops) && Mentioned(ops, table[i].name))
    && (|table| < 4096 ==> forall name :: Mentioned(ops, name) ==> Find(table, name, 0) >= 0)
  }

  lemma OtherMeans(s: Symbol, ops: seq<Operation>, o: Operation)
    requires Means(s, ops) && o.name != s.name
    ensures Means(s, ops + [o])
  {
    assert (ops + [o])[..|ops|] == ops;
  }

  lemma OwnMeans(s: Symbol, ops: seq<Operation>, o: Operation, t: Symbol)
    requires Means(s, ops) && o.name == s.name && t.name == s.name && t.typ == s.typ
    requires t.bind == if o.Global? && s.name != [] then 1 else s.bind
    requires o.Label? && s.name != [] ==> t.value == o.value && t.shndx == IndexOf(o.section)
    requires !(o.Label? && s.name != []) ==> t.value == s.value && t.shndx == s.shndx
    ensures Means(t, ops + [o])
  {
    assert (ops + [o])[..|ops|] == ops;
  }

  lemma NewMeans(ops: seq<Operation>, o: Operation, t: Symbol)
    requires !Mentioned(ops, t.name) && Mentions(o, t.name)
    requires t == Symbol(t.name, 0, if o.Label? then o.value else 0, if o.Label? then IndexOf(o.section) else 0,
                         if o.Global? then 1 else 0, 0)
    ensures Means(t, ops + [o])
  {
    assert (ops + [o])[..|ops|] == ops;
    if t.name != [] {
      UnnamedIsNothing(ops, t.name);
    }
  }

  lemma OneIsDone(table: seq<Symbol>, ops: seq<Operation>, o: Operation, i: nat)
    requires TableIs(table, ops) && i < |Done(table, o).0|
    ensures Means(Done(table, o).0[i], ops + [o]) && Mentioned(ops + [o], Done(table, o).0[i].name)
  {
    var after := Done(table, o).0;
    NamedAfter(ops, o, after[i].name);
    if i < |table| {
      assert Means(table[i], ops) && Mentioned(ops, table[i].name);
      if o.name == table[i].name {
        OwnMeans(table[i], ops, o, after[i]);
      } else {
        OtherMeans(table[i], ops, o);
      }
    } else {
      NewMeans(ops, o, after[i]);
    }
  }

  lemma AllAreThere(table: seq<Symbol>, ops: seq<Operation>, o: Operation, name: seq<byte>)
    requires TableIs(table, ops) && |Done(table, o).0| < CAPACITY && Mentioned(ops + [o], name)
    ensures Find(Done(table, o).0, name, 0) >= 0
  {
    var after := Done(table, o).0;
    NamedAfter(ops, o, name);
    if Mentioned(ops, name) {
      var k := Find(table, name, 0);
      assert after[k].name == name;
    } else {
      var k := Find(table, name, 0);
      assert after[if k >= 0 then k else |table|].name == name;
    }
  }

  lemma StaysDistinct(table: seq<Symbol>, o: Operation)
    requires |table| <= CAPACITY && DistinctNames(table)
    ensures |Done(table, o).0| <= CAPACITY && DistinctNames(Done(table, o).0)
  {
  }

  lemma DoneIs(table: seq<Symbol>, ops: seq<Operation>, o: Operation)
    requires TableIs(table, ops)
    ensures TableIs(Done(table, o).0, ops + [o])
  {
    var after := Done(table, o).0;
    StaysDistinct(table, o);
    forall i | 0 <= i < |after|
      ensures Means(after[i], ops + [o]) && Mentioned(ops + [o], after[i].name)
    {
      OneIsDone(table, ops, o, i);
    }
    if |after| < CAPACITY {
      forall name | Mentioned(ops + [o], name)
        ensures Find(after, name, 0) >= 0
      {
        AllAreThere(table, ops, o, name);
      }
    }
  }

  /** After any operations on an empty table: every symbol named is in it, once, unless the table is full; `global`
      sticks; a definition stays under later references and `global` lines, until the next definition. */
  lemma {:induction false} TableMeans(ops: seq<Operation>)
    ensures TableIs(Table(ops), ops)
  {
    if ops != [] {
      var before, o := ops[..|ops| - 1], ops[|ops| - 1];
      TableMeans(before);
      DoneIs(Table(before), before, o);
      assert ops == before + [o];
    }
  }

  class Assembler {
    var text: Section
    var data: Section
    var bss: Section
    var current: Current
    var symbols: seq<Symbol>
    var relocs: seq<Reloc>

    ghost predicate Valid()
      reads this
    {
      && WellFormed(symbols, relocs)
      && |text.data| < WIDTH64 && |data.data| < WIDTH64 && |bss.data| < WIDTH64 && bss.size < WIDTH64
    }

    method FindSymbol(name: seq<byte>) returns (r: int)
      ensures r == Find(symbols, name, 0)
    {
      for i := 0 to |symbols|
        invariant Find(symbols, name, 0) == Find(symbols, name, i)
      {
        if symbols[i].name == name {
          return i;
        }
      }
      return -1;
    }

    method AddSymbol(name: seq<byte>, value: nat, shndx: nat, bind: nat) returns (ok: bool)
      modifies `symbols
      ensures (symbols, ok) == Entered(old(symbols), name, value, shndx, bind)
    {
      var index := FindSymbol(name);
      if index >= 0 {
        if shndx != UNDEFINED {
          symbols := symbols[index := symbols[index].(value := value, shndx := shndx)];
        }
        if bind == GLOBAL {
          symbols := symbols[index := symbols[index].(bind := GLOBAL)];
        }
        assert symbols == Entered(old(symbols), name, value, shndx, bind).0;
        return true;
      }
      if |symbols| >= CAPACITY {
        return false;
      }
      symbols := symbols + [Symbol(name, 0, value, shndx, bind, 0)];
      return true;
    }

    function CurrentOffset(): nat
      reads this
    {
      match current
      case InText => |text.data|
      case InData => |data.data|
      case InBss => bss.size
    }

    method DefineLabel(name: seq<byte>) returns (ok: bool)
      requires Valid()
      modifies `symbols
      ensures Valid()
      ensures (symbols, ok) == Done(old(symbols), Label(name, CurrentOffset(), current))
    {
      if name == [] {
        return false;
      }
      EnteredKeeps(symbols, relocs, name, CurrentOffset(), IndexOf(current), LOCAL);
      ok := AddSymbol(name, CurrentOffset(), IndexOf(current), LOCAL);
    }

    method DefineGlobal(name: seq<byte>) returns (ok: bool)
      requires Valid()
      modifies `symbols
      ensures Valid()
      ensures (symbols, ok) == Done(old(symbols), Global(name))
    {
      if name == [] {
        return false;
      }
      EnteredKeeps(symbols, relocs, name, 0, UNDEFINED, GLOBAL);
      ok := AddSymbol(name, 0, UNDEFINED, GLOBAL);
    }

    function CurrentData(): seq<byte>
      reads this
    {
      match current
      case InText => text.data
      case InData => data.data
      case InBss => bss.data
    }

    method AppendBytes(bytes: seq<byte>)
      modifies `text, `data, `bss
      ensures CurrentData() == old(CurrentData()) + bytes
      ensures text == if current.InText? then old(text).(data := CurrentData()) else old(text)
      ensures data == if current.InData? then old(data).(data := CurrentData()) else old(data)
      ensures bss == if current.InBss? then old(bss).(data := CurrentData()) else old(bss)
    {
      match current
      case InText => text := text.(data := text.data + bytes);
      case InData => data := data.(data := data.data + bytes);
      case InBss => bss := bss.(data := bss.data + bytes);
    }

    /** A jump to a label: the opcode, room for the distance, and a relocation for the symbol of that name. */
    method EmitJump(opcode: seq<byte>, name: seq<byte>) returns (ok: bool)
      requires Valid() && |CurrentData()| + |opcode| + 4 < WIDTH64
      modifies `symbols, `relocs, `text, `data, `bss
      ensures Valid()
      ensures (symbols, ok) == Done(old(symbols), Jump(name))
      ensures text == if current.InText? then old(text).(data := CurrentData()) else old(text)
      ensures data == if current.InData? then old(data).(data := CurrentData()) else old(data)
      ensures bss == if current.InBss? then old(bss).(data := CurrentData()) else old(bss)
      ensures !ok ==> relocs == old(relocs) && CurrentData() == old(CurrentData())
      ensures ok ==>
        && CurrentData() == old(CurrentData()) + (opcode + [0, 0, 0, 0])
        && |relocs| == |old(relocs)| + 1 && relocs[..|old(relocs)|] == old(relocs)
        && var r := relocs[|old(relocs)|];
           && r.sec == IndexOf(current) && r.off == |old(CurrentData())| + |opcode| && r.typ == 2 && r.addend == -4
           && symbols[r.sym].name == name
    {
      EnteredKeeps(symbols, relocs, name, 0, UNDEFINED, LOCAL);
      ok := AddSymbol(name, 0, UNDEFINED, LOCAL);
      if !ok {
        return;
      }
      var index := FindSymbol(name);
      var at := |CurrentData()|;
      AppendBytes(opcode + [0, 0, 0, 0]);
      relocs := relocs + [Reloc(IndexOf(current), at + |opcode|, index, PC32, -4)];
    }
  }
}
