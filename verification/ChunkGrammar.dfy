/** Source text as a list of items: string literals with their escapes, comments, directive lines, braces, semicolons
    and single bytes. Every text is one, and its raw chunks are cut at the items, as the list says. */
module ChunkGrammar {
  import opened Bytes
  import S = ChunkScanner

  /** A byte of a string literal, or a backslash with the byte it escapes. */
  datatype Part = Raw(b: byte) | Escape(b: byte)

  datatype Item =
    | Literal(quote: byte, parts: seq<Part>)
    | LineComment(text: seq<byte>)
    | BlockComment(text: seq<byte>)
    | DirectiveLine(mark: byte, text: seq<byte>)
    | OpenBrace
    | CloseBrace
    | Semicolon
    | LineBreak
    | Blank(b: byte)
    | Other(b: byte)

  /** How a text may end: with an item, or inside of one. */
  datatype Tail =
    | Complete
    | OpenLiteral(quote: byte, parts: seq<Part>, escaping: bool)
    | OpenLine(text: seq<byte>)
    | OpenBlock(text: seq<byte>)
    | OpenDirective(mark: byte, text: seq<byte>)

  // ---------------------------------------------------------------- spelling

  function PartBytes(p: Part): (s: seq<byte>)
    ensures s != []
  {
    match p
    case Raw(b) => [b]
    case Escape(b) => [92, b]
  }

  function PartsBytes(parts: seq<Part>): seq<byte> {
    if parts == [] then [] else PartBytes(parts[0]) + PartsBytes(parts[1..])
  }

  function ItemBytes(i: Item): (s: seq<byte>)
    ensures s != []
  {
    match i
    case Literal(quote, parts) => [quote] + (PartsBytes(parts) + [quote])
    case LineComment(text) => [47, 47] + (text + [10])
    case BlockComment(text) => [47, 42] + (text + [42, 47])
    case DirectiveLine(mark, text) => [mark] + (text + [10])
    case OpenBrace => [123]
    case CloseBrace => [125]
    case Semicolon => [59]
    case LineBreak => [10]
    case Blank(b) => [b]
    case Other(b) => [b]
  }

  function TailBytes(t: Tail): seq<byte> {
    match t
    case Complete => []
    case OpenLiteral(quote, parts, escaping) => [quote] + (PartsBytes(parts) + if escaping then [92] else [])
    case OpenLine(text) => [47, 47] + text
    case OpenBlock(text) => [47, 42] + text
    case OpenDirective(mark, text) => [mark] + text
  }

  function Text(items: seq<Item>, tail: Tail): seq<byte> {
    if items == [] then TailBytes(tail) else ItemBytes(items[0]) + Text(items[1..], tail)
  }

  predicate PartsOk(quote: byte, parts: seq<Part>) {
    (quote == 34 || quote == 39) &&
    forall k {:trigger parts[k]} :: 0 <= k < |parts| && parts[k].Raw? ==> parts[k].b != quote && parts[k].b != 92
  }

  /** No `*` with a `/` behind it. */
  predicate NoClose(text: seq<byte>) {
    forall k {:trigger text[k]} :: 0 <= k < |text| - 1 && text[k] == 42 ==> text[k + 1] != 47
  }

  predicate IsMark(b: byte) {
    b == 35 || b == 46
  }

  /** The first thing on its line may be a directive; nothing else begins with `#` or a dot there. A `/` alone is not
      followed by what would make it a comment. */
  predicate ItemOk(i: Item, lineStart: bool, rest: seq<byte>) {
    match i
    case Literal(quote, parts) => PartsOk(quote, parts)
    case LineComment(text) => 10 !in text
    case BlockComment(text) => NoClose(text)
    case DirectiveLine(mark, text) => lineStart && IsMark(mark) && 10 !in text
    case Blank(b) => b == 32 || b == 9 || b == 13
    case Other(b) =>
      && b !in [10, 32, 9, 13, 34, 39, 123, 125, 59] && (lineStart ==> !IsMark(b))
      && (b == 47 && rest != [] ==> rest[0] != 47 && rest[0] != 42)
    case _ => true
  }

  predicate TailOk(t: Tail, lineStart: bool) {
    match t
    case Complete => true
    case OpenLiteral(quote, parts, _) => PartsOk(quote, parts)
    case OpenLine(text) => 10 !in text
    case OpenBlock(text) => NoClose(text)
    case OpenDirective(mark, text) => lineStart && IsMark(mark) && 10 !in text
  }

  /** Whether only blanks and block comments come between the line break and what follows. */
  function NextLineStart(i: Item, lineStart: bool): bool {
    match i
    case LineComment(_) => true
    case DirectiveLine(_, _) => true
    case LineBreak => true
    case BlockComment(_) => lineStart
    case Blank(_) => lineStart
    case _ => false
  }

  predicate IsText(items: seq<Item>, lineStart: bool, tail: Tail) {
    if items == [] then TailOk(tail, lineStart)
    else
      && ItemOk(items[0], lineStart, Text(items[1..], tail))
      && IsText(items[1..], NextLineStart(items[0], lineStart), tail)
  }

  // ---------------------------------------------------------------- where it is cut

  /** The chunks so far and where the unfinished one began. */
  datatype Cuts = Cuts(chunks: seq<S.Chunk>, start: nat)

  function CutAt(c: Cuts, end: nat, kind: S.Kind): Cuts {
    Cuts(c.chunks + [S.Chunk(c.start, end, kind)], end)
  }

  /** A directive, with the code before it cut off. */
  function CutAround(c: Cuts, from: nat, end: nat): Cuts {
    CutAt(if c.start < from then CutAt(c, from, S.Code) else c, end, S.Directive)
  }

  function DepthAfter(i: Item, depth: nat): nat {
    match i
    case OpenBrace => depth + 1
    case CloseBrace => if depth > 0 then depth - 1 else 0
    case _ => depth
  }

  /** A text is cut behind the semicolons outside of braces, behind the brace that closes the outermost one, and around
      directives. */
  function CutBehind(i: Item, c: Cuts, from: nat, depth: nat): Cuts {
    var end := from + |ItemBytes(i)|;
    match i
    case Semicolon => if depth == 0 then CutAt(c, end, S.Statement) else c
    case CloseBrace => if DepthAfter(i, depth) == 0 then CutAt(c, end, S.Block) else c
    case DirectiveLine(_, _) => CutAround(c, from, end)
    case _ => c
  }

  function CutsOf(items: seq<Item>, tail: Tail, c: Cuts, from: nat, depth: nat): Cuts {
    if items == [] then
      if tail.OpenDirective? then CutAround(c, from, from + |TailBytes(tail)|) else c
    else
      CutsOf(items[1..], tail, CutBehind(items[0], c, from, depth), from + |ItemBytes(items[0])|,
             DepthAfter(items[0], depth))
  }

  /** What is left at the end is code. */
  function Pieces(items: seq<Item>, tail: Tail): seq<S.Chunk> {
    var c, end := CutsOf(items, tail, Cuts([], 0), 0, 0), |Text(items, tail)|;
    if c.start < end then c.chunks + [S.Chunk(c.start, end, S.Code)] else c.chunks
  }

  // ---------------------------------------------------------------- the scanner follows the items

  ghost function Plain(depth: nat, lineStart: bool): S.Mode {
    S.Mode(depth, lineStart, 0, false, false, false, false)
  }

  /** What the scanner knows before byte `k`. */
  ghost predicate At(data: seq<byte>, k: nat, c: Cuts, m: S.Mode) {
    k <= |data| && S.After(data, k) == S.Progress(c.chunks, c.start) && S.ModeAt(data, k) == m
  }

  type Knows = (nat, Cuts, S.Mode) -> bool

  /** The lemmas pass this on and need not look into it; it is opened where a byte is read. */
  ghost predicate IsKnowing(at: Knows, data: seq<byte>) {
    forall k: nat, c: Cuts, m: S.Mode {:trigger Opened(k, c, m)} :: at(k, c, m) <==> At(data, k, c, m)
  }

  predicate Opened(k: nat, c: Cuts, m: S.Mode) {
    true
  }

  ghost predicate Ends(at: Knows, end: nat, c: Cuts) {
    exists m :: at(end, c, m)
  }

  ghost function Knowing(data: seq<byte>): (at: Knows)
    ensures IsKnowing(at, data)
  {
    (k: nat, c: Cuts, m: S.Mode) => At(data, k, c, m)
  }

  /** One byte outside of directives that finishes no chunk. */
  lemma OneByte(at: Knows, data: seq<byte>, k: nat, c: Cuts, m: S.Mode)
    requires IsKnowing(at, data)
    requires k < |data| && at(k, c, m) && !m.inDirective && !S.OpensDirective(m, data[k])
    requires S.InCode(m) ==> data[k] != 125 && data[k] != 59
    ensures at(k + 1, c, S.Step(m, data[k], S.Follower(data, k)))
  {
    assert Opened(k, c, m) && Opened(k + 1, c, S.Step(m, data[k], S.Follower(data, k)));
  }

  ghost predicate Stands(data: seq<byte>, k: nat, piece: seq<byte>) {
    k + |piece| <= |data| && data[k..k + |piece|] == piece
  }

  lemma StandsParts(data: seq<byte>, k: nat, a: seq<byte>, b: seq<byte>)
    requires Stands(data, k, a + b)
    ensures Stands(data, k, a) && Stands(data, k + |a|, b)
  {
    assert (a + b)[..|a|] == a && (a + b)[|a|..] == b;
    assert data[k..k + |a| + |b|][..|a|] == data[k..k + |a|];
    assert data[k..k + |a| + |b|][|a|..] == data[k + |a|..k + |a| + |b|];
  }

  lemma StandsByte(data: seq<byte>, k: nat, piece: seq<byte>, i: nat)
    requires Stands(data, k, piece) && i < |piece|
    ensures data[k + i] == piece[i]
  {
    assert data[k..k + |piece|][i] == data[k + i];
  }

  // ---------------------------------------------------------------- strings

  lemma OnePart(at: Knows, data: seq<byte>, k: nat, c: Cuts, m: S.Mode, p: Part)
    requires IsKnowing(at, data)
    requires at(k, c, m) && Stands(data, k, PartBytes(p)) && m.inString != 0
    requires m == S.Mode(m.depth, m.lineStart, m.inString, false, false, false, false)
    requires p.Raw? ==> p.b != m.inString && p.b != 92
    ensures at(k + |PartBytes(p)|, c, m)
  {
    StandsByte(data, k, PartBytes(p), 0);
    OneByte(at, data, k, c, m);
    if p.Escape? {
      OneByte(at, data, k + 1, c, m.(skip := true));
    }
  }

  lemma {:induction false} InsideLiteral(at: Knows, data: seq<byte>, k: nat, c: Cuts, m: S.Mode, parts: seq<Part>)
    requires IsKnowing(at, data)
    requires at(k, c, m) && Stands(data, k, PartsBytes(parts)) && m.inString != 0 && PartsOk(m.inString, parts)
    requires m == S.Mode(m.depth, m.lineStart, m.inString, false, false, false, false)
    ensures at(k + |PartsBytes(parts)|, c, m)
    decreases |parts|
  {
    if parts != [] {
      var first, rest := parts[0], parts[1..];
      StandsParts(data, k, PartBytes(first), PartsBytes(rest));
      OnePart(at, data, k, c, m, first);
      assert forall j {:trigger rest[j]} :: 0 <= j < |rest| ==> rest[j] == parts[j + 1];
      InsideLiteral(at, data, k + |PartBytes(first)|, c, m, rest);
    }
  }

  lemma QuoteOpens(at: Knows, data: seq<byte>, k: nat, c: Cuts, depth: nat, lineStart: bool, quote: byte)
    requires IsKnowing(at, data)
    requires at(k, c, Plain(depth, lineStart)) && k < |data| && data[k] == quote && (quote == 34 || quote == 39)
    ensures at(k + 1, c, S.Mode(depth, false, quote, false, false, false, false))
  {
    OneByte(at, data, k, c, Plain(depth, lineStart));
  }

  lemma LiteralRead(at: Knows, data: seq<byte>, k: nat, c: Cuts, depth: nat, lineStart: bool, quote: byte,
                    parts: seq<Part>)
    requires IsKnowing(at, data)
    requires at(k, c, Plain(depth, lineStart)) && Stands(data, k, ItemBytes(Literal(quote, parts)))
    requires PartsOk(quote, parts)
    ensures at(k + |ItemBytes(Literal(quote, parts))|, c, Plain(depth, false))
  {
    var body := PartsBytes(parts);
    StandsParts(data, k, [quote], body + [quote]);
    StandsByte(data, k, [quote], 0);
    QuoteOpens(at, data, k, c, depth, lineStart, quote);
    StandsParts(data, k + 1, body, [quote]);
    var m := S.Mode(depth, false, quote, false, false, false, false);
    InsideLiteral(at, data, k + 1, c, m, parts);
    StandsByte(data, k + 1 + |body|, [quote], 0);
    OneByte(at, data, k + 1 + |body|, c, m);
  }

  // ---------------------------------------------------------------- comments

  lemma {:induction false} InsideLine(at: Knows, data: seq<byte>, k: nat, c: Cuts, m: S.Mode, end: nat)
    requires IsKnowing(at, data)
    requires at(k, c, m) && k <= end <= |data| && 10 !in data[k..end]
    requires m == S.Mode(m.depth, m.lineStart, 0, true, false, false, false)
    ensures at(end, c, m)
    decreases end - k
  {
    if k < end {
      assert data[k] == data[k..end][0] && data[k + 1..end] == data[k..end][1..];
      OneByte(at, data, k, c, m);
      InsideLine(at, data, k + 1, c, m, end);
    }
  }

  lemma CommentOpens(at: Knows, data: seq<byte>, k: nat, c: Cuts, depth: nat, lineStart: bool)
    requires IsKnowing(at, data)
    requires at(k, c, Plain(depth, lineStart)) && k + 1 < |data| && data[k] == 47
    requires data[k + 1] == 47 || data[k + 1] == 42
    ensures at(k + 2, c, S.Mode(depth, lineStart, 0, data[k + 1] == 47, data[k + 1] == 42, false, false))
  {
    var m := S.Mode(depth, lineStart, 0, data[k + 1] == 47, data[k + 1] == 42, true, false);
    OneByte(at, data, k, c, Plain(depth, lineStart));
    OneByte(at, data, k + 1, c, m);
  }

  lemma LineRead(at: Knows, data: seq<byte>, k: nat, c: Cuts, depth: nat, lineStart: bool, text: seq<byte>)
    requires IsKnowing(at, data)
    requires at(k, c, Plain(depth, lineStart)) && Stands(data, k, ItemBytes(LineComment(text))) && 10 !in text
    ensures at(k + |ItemBytes(LineComment(text))|, c, Plain(depth, true))
  {
    StandsParts(data, k, [47, 47], text + [10]);
    StandsByte(data, k, [47, 47], 0);
    StandsByte(data, k, [47, 47], 1);
    CommentOpens(at, data, k, c, depth, lineStart);
    StandsParts(data, k + 2, text, [10]);
    var m := S.Mode(depth, lineStart, 0, true, false, false, false);
    InsideLine(at, data, k + 2, c, m, k + 2 + |text|);
    StandsByte(data, k + 2 + |text|, [10], 0);
    OneByte(at, data, k + 2 + |text|, c, m);
  }

  lemma {:induction false} InsideBlock(at: Knows, data: seq<byte>, k: nat, c: Cuts, m: S.Mode, end: nat)
    requires IsKnowing(at, data)
    requires at(k, c, m) && k <= end <= |data|
    requires forall j {:trigger data[j]} :: k <= j < end && data[j] == 42 ==> S.Follower(data, j) != 47
    requires m == S.Mode(m.depth, m.lineStart, 0, false, true, false, false)
    ensures at(end, c, m)
    decreases end - k
  {
    if k < end {
      OneByte(at, data, k, c, m);
      InsideBlock(at, data, k + 1, c, m, end);
    }
  }

  lemma BlockRead(at: Knows, data: seq<byte>, k: nat, c: Cuts, depth: nat, lineStart: bool, text: seq<byte>)
    requires IsKnowing(at, data)
    requires at(k, c, Plain(depth, lineStart)) && Stands(data, k, ItemBytes(BlockComment(text))) && NoClose(text)
    ensures at(k + |ItemBytes(BlockComment(text))|, c, Plain(depth, lineStart))
  {
    StandsParts(data, k, [47, 42], text + [42, 47]);
    StandsByte(data, k, [47, 42], 0);
    StandsByte(data, k, [47, 42], 1);
    CommentOpens(at, data, k, c, depth, lineStart);
    StandsParts(data, k + 2, text, [42, 47]);
    var m, end := S.Mode(depth, lineStart, 0, false, true, false, false), k + 2 + |text|;
    StandsByte(data, end, [42, 47], 0);
    StandsByte(data, end, [42, 47], 1);
    forall j {:trigger data[j]} | k + 2 <= j < end && data[j] == 42
      ensures S.Follower(data, j) != 47
    {
      StandsByte(data, k + 2, text, j - k - 2);
      if j + 1 < end {
        StandsByte(data, k + 2, text, j - k - 1);
      }
    }
    InsideBlock(at, data, k + 2, c, m, end);
    OneByte(at, data, end, c, m);
    OneByte(at, data, end + 1, c, m.(inBlock := false, skip := true));
  }

  // ---------------------------------------------------------------- directives

  lemma NoBreak(data: seq<byte>, k: nat, mark: byte, text: seq<byte>)
    requires Stands(data, k, [mark] + text) && IsMark(mark) && 10 !in text
    ensures data[k] == mark && 10 !in data[k..k + 1 + |text|] && 10 !in data[k..k + |text|]
  {
    StandsByte(data, k, [mark] + text, 0);
    var all := data[k..k + 1 + |text|];
    assert all == [mark] + text;
    assert data[k..k + |text|] == all[..|text|];
  }

  lemma StartBefore(data: seq<byte>, k: nat)
    requires k <= |data|
    ensures S.After(data, k).start <= k
  {
    S.AfterIsCut(data, k);
  }

  lemma CutIsFinish(c: Cuts, k: nat, end: nat)
    requires c.start <= k
    ensures var d := CutAround(c, k, end);
      S.Finish(S.CodeBefore(S.Progress(c.chunks, c.start), k), end, S.Directive) == S.Progress(d.chunks, d.start)
  {
  }

  lemma DirectiveAt(data: seq<byte>, k: nat, c: Cuts, depth: nat, end: nat)
    requires At(data, k, c, Plain(depth, true)) && k + 2 <= end <= |data| && IsMark(data[k])
    requires 10 !in data[k..end - 1] && data[end - 1] == 10
    ensures At(data, end, CutAround(c, k, end), Plain(depth, true))
  {
    StartBefore(data, k);
    CutIsFinish(c, k, end);
    S.PastDirective(data, k, end);
    S.InsideDirective(data, k, end - 1);
  }

  lemma DirectiveRead(at: Knows, data: seq<byte>, k: nat, c: Cuts, depth: nat, mark: byte, text: seq<byte>)
    requires IsKnowing(at, data)
    requires at(k, c, Plain(depth, true)) && Stands(data, k, ItemBytes(DirectiveLine(mark, text)))
    requires IsMark(mark) && 10 !in text
    ensures var end := k + |ItemBytes(DirectiveLine(mark, text))|;
      at(end, CutAround(c, k, end), Plain(depth, true))
  {
    var end := k + 2 + |text|;
    assert [mark] + (text + [10]) == ([mark] + text) + [10];
    StandsParts(data, k, [mark] + text, [10]);
    NoBreak(data, k, mark, text);
    StandsByte(data, end - 1, [10], 0);
    assert Opened(k, c, Plain(depth, true)) && Opened(end, CutAround(c, k, end), Plain(depth, true));
    DirectiveAt(data, k, c, depth, end);
  }

  lemma OpenDirectiveAt(data: seq<byte>, k: nat, c: Cuts, depth: nat, end: nat)
    requires At(data, k, c, Plain(depth, true)) && k < end == |data| && IsMark(data[k]) && 10 !in data[k..end - 1]
    ensures var d := CutAround(c, k, end); S.After(data, end) == S.Progress(d.chunks, d.start)
  {
    StartBefore(data, k);
    CutIsFinish(c, k, end);
    S.PastDirective(data, k, end);
  }

  lemma OpenDirectiveRead(at: Knows, data: seq<byte>, k: nat, c: Cuts, depth: nat, mark: byte, text: seq<byte>)
    requires IsKnowing(at, data)
    requires at(k, c, Plain(depth, true)) && Stands(data, k, [mark] + text) && k + 1 + |text| == |data|
    requires IsMark(mark) && 10 !in text
    ensures Ends(at, |data|, CutAround(c, k, |data|))
  {
    NoBreak(data, k, mark, text);
    var m := S.ModeAt(data, |data|);
    assert Opened(k, c, Plain(depth, true)) && Opened(|data|, CutAround(c, k, |data|), m);
    OpenDirectiveAt(data, k, c, depth, |data|);
    assert at(|data|, CutAround(c, k, |data|), m);
  }

  // ---------------------------------------------------------------- single bytes

  lemma ByteRead(at: Knows, data: seq<byte>, k: nat, c: Cuts, depth: nat, lineStart: bool, i: Item)
    requires IsKnowing(at, data)
    requires at(k, c, Plain(depth, lineStart)) && Stands(data, k, ItemBytes(i))
    requires i.LineBreak? || i.Blank? || i.Other? || i.OpenBrace?
    requires ItemOk(i, lineStart, data[k + |ItemBytes(i)|..])
    ensures at(k + |ItemBytes(i)|, c, Plain(DepthAfter(i, depth), NextLineStart(i, lineStart)))
  {
    StandsByte(data, k, ItemBytes(i), 0);
    if k + 1 < |data| {
      assert data[k + 1..][0] == data[k + 1];
    }
    OneByte(at, data, k, c, Plain(depth, lineStart));
  }

  lemma BorderAt(data: seq<byte>, k: nat, c: Cuts, depth: nat, lineStart: bool, i: Item)
    requires At(data, k, c, Plain(depth, lineStart)) && k < |data| && (i.Semicolon? || i.CloseBrace?)
    requires ItemBytes(i) == [data[k]]
    ensures At(data, k + 1, CutBehind(i, c, k, depth), Plain(DepthAfter(i, depth), false))
  {
  }

  lemma BorderRead(at: Knows, data: seq<byte>, k: nat, c: Cuts, depth: nat, lineStart: bool, i: Item)
    requires IsKnowing(at, data)
    requires at(k, c, Plain(depth, lineStart)) && Stands(data, k, ItemBytes(i)) && (i.Semicolon? || i.CloseBrace?)
    ensures at(k + |ItemBytes(i)|, CutBehind(i, c, k, depth), Plain(DepthAfter(i, depth), false))
  {
    StandsByte(data, k, ItemBytes(i), 0);
    assert Opened(k, c, Plain(depth, lineStart));
    assert Opened(k + 1, CutBehind(i, c, k, depth), Plain(DepthAfter(i, depth), false));
    BorderAt(data, k, c, depth, lineStart, i);
  }

  /** Each item takes the scanner to its end, and to the cuts the list says. */
  lemma ItemRead(at: Knows, data: seq<byte>, k: nat, c: Cuts, depth: nat, lineStart: bool, i: Item)
    requires IsKnowing(at, data)
    requires at(k, c, Plain(depth, lineStart)) && Stands(data, k, ItemBytes(i))
    requires ItemOk(i, lineStart, data[k + |ItemBytes(i)|..])
    ensures at(k + |ItemBytes(i)|, CutBehind(i, c, k, depth),
               Plain(DepthAfter(i, depth), NextLineStart(i, lineStart)))
  {
    match i
    case Literal(quote, parts) => LiteralRead(at, data, k, c, depth, lineStart, quote, parts);
    case LineComment(text) => LineRead(at, data, k, c, depth, lineStart, text);
    case BlockComment(text) => BlockRead(at, data, k, c, depth, lineStart, text);
    case DirectiveLine(mark, text) => DirectiveRead(at, data, k, c, depth, mark, text);
    case Semicolon => BorderRead(at, data, k, c, depth, lineStart, i);
    case CloseBrace => BorderRead(at, data, k, c, depth, lineStart, i);
    case _ => ByteRead(at, data, k, c, depth, lineStart, i);
  }

  // ---------------------------------------------------------------- ends inside of items

  lemma OpenLiteralRead(at: Knows, data: seq<byte>, k: nat, c: Cuts, depth: nat, lineStart: bool, tail: Tail)
    requires IsKnowing(at, data)
    requires at(k, c, Plain(depth, lineStart)) && Stands(data, k, TailBytes(tail)) && TailOk(tail, lineStart)
    requires tail.OpenLiteral? && k + |TailBytes(tail)| == |data|
    ensures Ends(at, |data|, c)
  {
    var body, end := PartsBytes(tail.parts), if tail.escaping then [92] else [];
    StandsParts(data, k, [tail.quote], body + end);
    StandsByte(data, k, [tail.quote], 0);
    QuoteOpens(at, data, k, c, depth, lineStart, tail.quote);
    StandsParts(data, k + 1, body, end);
    var m := S.Mode(depth, false, tail.quote, false, false, false, false);
    InsideLiteral(at, data, k + 1, c, m, tail.parts);
    if tail.escaping {
      OneByte(at, data, k + 1 + |body|, c, m);
    }
  }

  lemma OpenCommentRead(at: Knows, data: seq<byte>, k: nat, c: Cuts, depth: nat, lineStart: bool, tail: Tail)
    requires IsKnowing(at, data)
    requires at(k, c, Plain(depth, lineStart)) && Stands(data, k, TailBytes(tail)) && TailOk(tail, lineStart)
    requires (tail.OpenLine? || tail.OpenBlock?) && k + |TailBytes(tail)| == |data|
    ensures Ends(at, |data|, c)
  {
    var mark := [47, if tail.OpenLine? then 47 else 42];
    StandsParts(data, k, mark, tail.text);
    StandsByte(data, k, mark, 0);
    StandsByte(data, k, mark, 1);
    CommentOpens(at, data, k, c, depth, lineStart);
    var m := S.Mode(depth, lineStart, 0, tail.OpenLine?, tail.OpenBlock?, false, false);
    if tail.OpenLine? {
      InsideLine(at, data, k + 2, c, m, |data|);
    } else {
      forall j {:trigger data[j]} | k + 2 <= j < |data| && data[j] == 42
        ensures S.Follower(data, j) != 47
      {
        StandsByte(data, k + 2, tail.text, j - k - 2);
        if j + 1 < |data| {
          StandsByte(data, k + 2, tail.text, j - k - 1);
        }
      }
      InsideBlock(at, data, k + 2, c, m, |data|);
    }
  }

  // ---------------------------------------------------------------- whole texts

  lemma RestIs(data: seq<byte>, k: nat, a: seq<byte>, b: seq<byte>)
    requires k <= |data| && data[k..] == a + b
    ensures Stands(data, k, a) && k + |a| <= |data| && data[k + |a|..] == b
  {
    assert data[k..][|a|..] == data[k + |a|..];
    assert data[k..][..|a|] == data[k..k + |a|];
  }

  lemma {:induction false} ItemsRead(at: Knows, data: seq<byte>, k: nat, c: Cuts, depth: nat, lineStart: bool,
                                     items: seq<Item>, tail: Tail)
    requires IsKnowing(at, data)
    requires k <= |data| && at(k, c, Plain(depth, lineStart)) && data[k..] == Text(items, tail)
    requires IsText(items, lineStart, tail)
    ensures Ends(at, |data|, CutsOf(items, tail, c, k, depth))
    decreases |items|
  {
    if items == [] {
      RestIs(data, k, TailBytes(tail), []);
      assert TailBytes(tail) + [] == TailBytes(tail);
      match tail
      case Complete =>
      case OpenLiteral(_, _, _) => OpenLiteralRead(at, data, k, c, depth, lineStart, tail);
      case OpenDirective(mark, text) => OpenDirectiveRead(at, data, k, c, depth, mark, text);
      case _ => OpenCommentRead(at, data, k, c, depth, lineStart, tail);
    } else {
      var i := items[0];
      RestIs(data, k, ItemBytes(i), Text(items[1..], tail));
      ItemRead(at, data, k, c, depth, lineStart, i);
      ItemsRead(at, data, k + |ItemBytes(i)|, CutBehind(i, c, k, depth), DepthAfter(i, depth),
                NextLineStart(i, lineStart), items[1..], tail);
    }
  }

  /** The raw chunks of a text are the pieces of its items. */
  lemma RawChunksArePieces(items: seq<Item>, tail: Tail)
    requires IsText(items, true, tail)
    ensures S.RawChunks(Text(items, tail)) == Pieces(items, tail)
  {
    var data := Text(items, tail);
    assert data[0..] == data;
    var at, start, end := Knowing(data), Cuts([], 0), CutsOf(items, tail, Cuts([], 0), 0, 0);
    assert Opened(0, start, Plain(0, true));
    ItemsRead(at, data, 0, start, 0, true, items, tail);
    var m :| at(|data|, end, m);
    assert Opened(|data|, end, m);
  }

  // ---------------------------------------------------------------- every text is one

  /** Up to the first line break. */
  lemma {:induction false} LineOf(data: seq<byte>) returns (text: seq<byte>, ended: bool, rest: seq<byte>)
    ensures 10 !in text && data == text + (if ended then [10] + rest else []) && |rest| <= |data|
    decreases |data|
  {
    if data == [] {
      text, ended, rest := [], false, [];
    } else if data[0] == 10 {
      text, ended, rest := [], true, data[1..];
    } else {
      text, ended, rest := LineOf(data[1..]);
      text := [data[0]] + text;
      assert data == [data[0]] + data[1..];
    }
  }

  /** Up to the first mark that ends a block comment. */
  lemma {:induction false} BlockOf(data: seq<byte>) returns (text: seq<byte>, ended: bool, rest: seq<byte>)
    ensures NoClose(text) && data == text + (if ended then [42, 47] + rest else []) && |rest| <= |data|
    ensures text != [] ==> text[0] == data[0]
    ensures data != [] && text == [] ==> |data| >= 2 && data[0] == 42 && data[1] == 47
    decreases |data|
  {
    if data == [] {
      text, ended, rest := [], false, [];
    } else if |data| >= 2 && data[0] == 42 && data[1] == 47 {
      text, ended, rest := [], true, data[2..];
      assert data == [42, 47] + data[2..];
    } else {
      var after;
      after, ended, rest := BlockOf(data[1..]);
      text := [data[0]] + after;
      assert data == [data[0]] + data[1..];
      assert after != [] ==> after[0] == data[1];
    }
  }

  /** Up to the quote that closes a string literal. */
  lemma {:induction false} LiteralOf(quote: byte, data: seq<byte>)
    returns (parts: seq<Part>, ended: bool, escaping: bool, rest: seq<byte>)
    requires quote == 34 || quote == 39
    ensures PartsOk(quote, parts) && |rest| <= |data|
    ensures data == PartsBytes(parts) + (if ended then [quote] + rest else if escaping then [92] else [])
    decreases |data|
  {
    if data == [] {
      parts, ended, escaping, rest := [], false, false, [];
    } else if data[0] == quote {
      parts, ended, escaping, rest := [], true, false, data[1..];
    } else if data == [92] {
      parts, ended, escaping, rest := [], false, true, [];
    } else {
      var p := if data[0] == 92 then Escape(data[1]) else Raw(data[0]);
      var behind := data[|PartBytes(p)|..];
      parts, ended, escaping, rest := LiteralOf(quote, behind);
      assert data == PartBytes(p) + behind;
      parts := MoreParts(quote, p, parts);
    }
  }

  lemma MoreParts(quote: byte, p: Part, parts: seq<Part>) returns (all: seq<Part>)
    requires PartsOk(quote, parts) && (p.Raw? ==> p.b != quote && p.b != 92)
    ensures PartsOk(quote, all) && PartsBytes(all) == PartBytes(p) + PartsBytes(parts)
  {
    all := [p] + parts;
    assert all[1..] == parts;
  }

  /** The first item of a text, if it ends in it. */
  lemma FirstItem(data: seq<byte>, lineStart: bool) returns (whole: bool, i: Item, tail: Tail, rest: seq<byte>)
    requires data != []
    ensures whole ==> data == ItemBytes(i) + rest && ItemOk(i, lineStart, rest)
    ensures !whole ==> data == TailBytes(tail) && TailOk(tail, lineStart)
  {
    var b := data[0];
    tail, rest, whole := Complete, data[1..], true;
    assert data == [b] + rest;
    if b == 34 || b == 39 {
      whole, i, tail, rest := FirstLiteral(data);
    } else if b == 47 && |data| >= 2 && (data[1] == 47 || data[1] == 42) {
      whole, i, tail, rest := FirstComment(data, lineStart);
    } else if lineStart && IsMark(b) {
      whole, i, tail, rest := FirstDirective(data);
    } else {
      i := if b == 10 then LineBreak else if b == 32 || b == 9 || b == 13 then Blank(b) else if b == 123 then OpenBrace
           else if b == 125 then CloseBrace else if b == 59 then Semicolon else Other(b);
    }
  }

  lemma FirstLiteral(data: seq<byte>) returns (whole: bool, i: Item, tail: Tail, rest: seq<byte>)
    requires data != [] && (data[0] == 34 || data[0] == 39)
    ensures whole ==> data == ItemBytes(i) + rest && ItemOk(i, false, rest) && i.Literal?
    ensures !whole ==> data == TailBytes(tail) && TailOk(tail, false) && tail.OpenLiteral?
  {
    var quote := data[0];
    var parts, escaping;
    parts, whole, escaping, rest := LiteralOf(quote, data[1..]);
    i, tail := Literal(quote, parts), OpenLiteral(quote, parts, escaping);
    assert data == [quote] + data[1..];
    if whole {
      assert PartsBytes(parts) + ([quote] + rest) == PartsBytes(parts) + [quote] + rest;
    }
  }

  lemma FirstComment(data: seq<byte>, lineStart: bool) returns (whole: bool, i: Item, tail: Tail, rest: seq<byte>)
    requires |data| >= 2 && data[0] == 47 && (data[1] == 47 || data[1] == 42)
    ensures whole ==> data == ItemBytes(i) + rest && ItemOk(i, lineStart, rest)
    ensures !whole ==> data == TailBytes(tail) && TailOk(tail, lineStart)
  {
    var text;
    assert data == [data[0], data[1]] + data[2..];
    if data[1] == 47 {
      text, whole, rest := LineOf(data[2..]);
      i, tail := LineComment(text), OpenLine(text);
      assert text + ([10] + rest) == text + [10] + rest;
    } else {
      text, whole, rest := BlockOf(data[2..]);
      i, tail := BlockComment(text), OpenBlock(text);
      assert text + ([42, 47] + rest) == text + [42, 47] + rest;
    }
  }

  lemma FirstDirective(data: seq<byte>) returns (whole: bool, i: Item, tail: Tail, rest: seq<byte>)
    requires data != [] && IsMark(data[0])
    ensures whole ==> data == ItemBytes(i) + rest && ItemOk(i, true, rest)
    ensures !whole ==> data == TailBytes(tail) && TailOk(tail, true)
  {
    var text;
    text, whole, rest := LineOf(data[1..]);
    i, tail := DirectiveLine(data[0], text), OpenDirective(data[0], text);
    assert data == [data[0]] + data[1..];
    assert text + ([10] + rest) == text + [10] + rest;
  }

  /** There is no text that is no list of items. */
  lemma {:induction false} EveryText(data: seq<byte>, lineStart: bool) returns (items: seq<Item>, tail: Tail)
    ensures IsText(items, lineStart, tail) && Text(items, tail) == data
    decreases |data|
  {
    if data == [] {
      items, tail := [], Complete;
    } else {
      var whole, i, end, rest := FirstItem(data, lineStart);
      if whole {
        assert |data| == |ItemBytes(i)| + |rest|;
        var more;
        more, tail := EveryText(rest, NextLineStart(i, lineStart));
        items := [i] + more;
        assert items[1..] == more;
      } else {
        items, tail := [], end;
      }
    }
  }

  /** So the raw chunks of any text are the pieces of items it is spelled by. */
  lemma RawChunksFollowItems(data: seq<byte>) returns (items: seq<Item>, tail: Tail)
    ensures IsText(items, true, tail) && Text(items, tail) == data && S.RawChunks(data) == Pieces(items, tail)
  {
    items, tail := EveryText(data, true);
    RawChunksArePieces(items, tail);
  }
}
