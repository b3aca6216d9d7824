/** Cutting source text into chunks: directives, blocks, statements and the code between them. */
module ChunkScanner {
  import opened Bytes

  datatype Kind = Code | Directive | Block | Statement
  datatype Chunk = Chunk(start: nat, end: nat, kind: Kind)

  const NEWLINE: byte := 10
  const TAB: byte := 9
  const RETURN: byte := 13
  const SPACE: byte := 32
  const DOUBLE_QUOTE: byte := 34
  const HASH: byte := 35
  const QUOTE: byte := 39
  const STAR: byte := 42
  const DOT: byte := 46
  const SLASH: byte := 47
  const SEMICOLON: byte := 59
  const BACKSLASH: byte := 92
  const OPEN_BRACE: byte := 123
  const CLOSE_BRACE: byte := 125

  predicate IsSpace(b: byte) {
    b == SPACE || b == TAB || b == RETURN || b == NEWLINE
  }

  // ---------------------------------------------------------------- what the text means, byte by byte

  /** The state of the text between two bytes. `skip`: the next byte belongs to the one before it, as the second
      character of a comment mark or an escaped character. */
  datatype Mode = Mode(depth: nat, lineStart: bool, inString: byte, inLine: bool, inBlock: bool, skip: bool,
      inDirective: bool)

  predicate InCode(m: Mode) {
    !m.skip && !m.inDirective && !m.inLine && !m.inBlock && m.inString == 0
  }

  predicate OpensComment(current: byte, follower: byte) {
    current == SLASH && (follower == SLASH || follower == STAR)
  }

  predicate OpensDirective(m: Mode, current: byte) {
    InCode(m) && m.lineStart && (current == HASH || current == DOT)
  }

  function Step(m: Mode, current: byte, follower: byte): Mode {
    if m.skip then m.(skip := false)
    else if m.inDirective then if current == NEWLINE then m.(inDirective := false, lineStart := true) else m
    else if m.inLine then if current == NEWLINE then m.(inLine := false, lineStart := true) else m
    else if m.inBlock then if current == STAR && follower == SLASH then m.(inBlock := false, skip := true) else m
    else if m.inString != 0 then
      if current == BACKSLASH then m.(skip := true)
      else if current == m.inString then m.(inString := 0)
      else m
    else if OpensComment(current, follower) then
      if follower == SLASH then m.(inLine := true, skip := true) else m.(inBlock := true, skip := true)
    else if current == DOUBLE_QUOTE || current == QUOTE then m.(inString := current, lineStart := false)
    else if OpensDirective(m, current) then m.(inDirective := true)
    else
      m.(lineStart := current == NEWLINE || (IsSpace(current) && m.lineStart),
         depth := if current == OPEN_BRACE then m.depth + 1
                  else if current == CLOSE_BRACE && m.depth > 0 then m.depth - 1 else m.depth)
  }

  function Follower(data: seq<byte>, k: nat): byte {
    if k + 1 < |data| then data[k + 1] else 0
  }

  function ModeAt(data: seq<byte>, k: nat): Mode
    requires k <= |data|
  {
    if k == 0 then Mode(0, true, 0, false, false, false, false)
    else Step(ModeAt(data, k - 1), data[k - 1], Follower(data, k - 1))
  }

  /** The chunks finished before byte `k`, and where the unfinished one began. */
  datatype Progress = Progress(chunks: seq<Chunk>, start: nat)

  function CodeBefore(p: Progress, k: nat): Progress {
    if k > p.start then Progress(p.chunks + [Chunk(p.start, k, Code)], k) else Progress(p.chunks, k)
  }

  function Finish(p: Progress, end: nat, kind: Kind): Progress {
    Progress(p.chunks + [Chunk(p.start, end, kind)], end)
  }

  /** What byte `k - 1`, met in mode `m`, does to the progress. */
  function Advance(p: Progress, m: Mode, b: byte, k: nat, last: bool): Progress
    requires k > 0
  {
    if OpensDirective(m, b) then
      var q := CodeBefore(p, k - 1);
      if last then Finish(q, k, Directive) else q
    else if m.inDirective && !m.skip then
      if b == NEWLINE || last then Finish(p, k, Directive) else p
    else if InCode(m) && b == CLOSE_BRACE && m.depth <= 1 then Finish(p, k, Block)
    else if InCode(m) && b == SEMICOLON && m.depth == 0 then Finish(p, k, Statement)
    else p
  }

  function After(data: seq<byte>, k: nat): Progress
    requires k <= |data|
  {
    if k == 0 then Progress([], 0)
    else Advance(After(data, k - 1), ModeAt(data, k - 1), data[k - 1], k, k == |data|)
  }

  /** The raw chunks of a text: directives, blocks and statements of the top level, and the code between them. */
  function RawChunks(data: seq<byte>): seq<Chunk> {
    var p := After(data, |data|);
    if p.start < |data| then p.chunks + [Chunk(p.start, |data|, Code)] else p.chunks
  }

  // ---------------------------------------------------------------- raw chunks tile the text

  /** The chunks cover `from..to` without gap or overlap, and none is empty. */
  ghost predicate Tiles(chunks: seq<Chunk>, from: nat, to: nat) {
    if chunks == [] then from == to
    else
      var last := chunks[|chunks| - 1];
      last.start < last.end == to && Tiles(chunks[..|chunks| - 1], from, last.start)
  }

  /** What makes a chunk of this kind begin or end where it does. */
  ghost predicate RightKind(data: seq<byte>, c: Chunk) {
    && c.start < c.end <= |data|
    && match c.kind
       case Block => data[c.end - 1] == CLOSE_BRACE
       case Statement => data[c.end - 1] == SEMICOLON
       case Directive =>
         && (data[c.start] == HASH || data[c.start] == DOT)
         && (c.end == |data| || data[c.end - 1] == NEWLINE)
         && NEWLINE !in data[c.start..c.end - 1]
       case Code => c.end == |data| || data[c.end] == HASH || data[c.end] == DOT
  }

  ghost predicate Cut(data: seq<byte>, chunks: seq<Chunk>, to: nat) {
    && Tiles(chunks, 0, to)
    && forall k :: 0 <= k < |chunks| ==> RightKind(data, chunks[k])
  }

  lemma CutOnce(data: seq<byte>, chunks: seq<Chunk>, to: nat, c: Chunk)
    requires Cut(data, chunks, to) && c.start == to && RightKind(data, c)
    ensures Cut(data, chunks + [c], c.end)
  {
    assert (chunks + [c])[..|chunks|] == chunks;
  }

  /** The unfinished chunk of a directive: where it began and that no line has ended since. */
  ghost predicate DirectiveOpen(data: seq<byte>, start: nat, k: nat) {
    start < k <= |data| && (data[start] == HASH || data[start] == DOT) && NEWLINE !in data[start..k]
  }

  ghost predicate CutSoFar(data: seq<byte>, k: nat)
    requires k <= |data|
  {
    var p, m := After(data, k), ModeAt(data, k);
    && p.start <= k && Cut(data, p.chunks, p.start) && !(m.inDirective && m.skip)
    && (m.inDirective && k < |data| ==> DirectiveOpen(data, p.start, k))
  }

  lemma CodeCut(data: seq<byte>, p: Progress, k: nat)
    requires p.start <= k < |data| && Cut(data, p.chunks, p.start) && (data[k] == HASH || data[k] == DOT)
    ensures CodeBefore(p, k).start == k && Cut(data, CodeBefore(p, k).chunks, k)
  {
    if k > p.start {
      CutOnce(data, p.chunks, p.start, Chunk(p.start, k, Code));
    }
  }

  lemma OneByteDirective(data: seq<byte>, chunks: seq<Chunk>, k: nat)
    requires k + 1 == |data| && Cut(data, chunks, k) && (data[k] == HASH || data[k] == DOT)
    ensures Cut(data, chunks + [Chunk(k, k + 1, Directive)], k + 1)
  {
    assert data[k..k] == [];
    CutOnce(data, chunks, k, Chunk(k, k + 1, Directive));
  }

  lemma DirectiveOpened(data: seq<byte>, k: nat)
    requires k < |data| && CutSoFar(data, k) && OpensDirective(ModeAt(data, k), data[k])
    ensures CutSoFar(data, k + 1)
  {
    var p := After(data, k);
    assert !OpensComment(data[k], Follower(data, k));
    assert data[k..k + 1] == [data[k]];
    CodeCut(data, p, k);
    if k + 1 == |data| {
      OneByteDirective(data, CodeBefore(p, k).chunks, k);
    }
  }

  lemma DirectiveContinued(data: seq<byte>, k: nat)
    requires k < |data| && CutSoFar(data, k) && ModeAt(data, k).inDirective
    ensures CutSoFar(data, k + 1)
  {
    var p := After(data, k);
    assert data[p.start..k + 1] == data[p.start..k] + [data[k]];
    if data[k] == NEWLINE || k + 1 == |data| {
      CutOnce(data, p.chunks, p.start, Chunk(p.start, k + 1, Directive));
    }
  }

  lemma CodeContinued(data: seq<byte>, k: nat)
    requires k < |data| && CutSoFar(data, k) && !ModeAt(data, k).inDirective
    requires !OpensDirective(ModeAt(data, k), data[k])
    ensures CutSoFar(data, k + 1)
  {
    var p, m := After(data, k), ModeAt(data, k);
    if InCode(m) && data[k] == CLOSE_BRACE && m.depth <= 1 {
      CutOnce(data, p.chunks, p.start, Chunk(p.start, k + 1, Block));
    } else if InCode(m) && data[k] == SEMICOLON && m.depth == 0 {
      CutOnce(data, p.chunks, p.start, Chunk(p.start, k + 1, Statement));
    }
  }

  lemma {:induction false} AfterIsCut(data: seq<byte>, k: nat)
    requires k <= |data|
    ensures CutSoFar(data, k)
  {
    if k > 0 {
      AfterIsCut(data, k - 1);
      if ModeAt(data, k - 1).inDirective {
        DirectiveContinued(data, k - 1);
      } else if OpensDirective(ModeAt(data, k - 1), data[k - 1]) {
        DirectiveOpened(data, k - 1);
      } else {
        CodeContinued(data, k - 1);
      }
    }
  }

  /** The raw chunks tile the whole text, and each ends or begins where its kind says. */
  lemma RawChunksTile(data: seq<byte>)
    ensures Cut(data, RawChunks(data), |data|)
  {
    AfterIsCut(data, |data|);
    var p := After(data, |data|);
    if p.start < |data| {
      CutOnce(data, p.chunks, p.start, Chunk(p.start, |data|, Code));
    }
  }

  // ---------------------------------------------------------------- the scanning loop

  lemma {:induction false} InsideDirective(data: seq<byte>, i: nat, k: nat)
    requires i < k < |data| && OpensDirective(ModeAt(data, i), data[i]) && NEWLINE !in data[i..k]
    ensures ModeAt(data, k) == ModeAt(data, i).(inDirective := true)
    ensures After(data, k) == CodeBefore(After(data, i), i)
    decreases k
  {
    if k > i + 1 {
      assert data[i..k] == data[i..k - 1] + [data[k - 1]];
      InsideDirective(data, i, k - 1);
    } else {
      assert OpensDirective(ModeAt(data, k - 1), data[k - 1]);
      assert !OpensComment(data[i], Follower(data, i));
    }
  }

  lemma PastDirective(data: seq<byte>, i: nat, end: nat)
    requires i < end <= |data| && OpensDirective(ModeAt(data, i), data[i]) && NEWLINE !in data[i..end - 1]
    requires end == |data| || data[end - 1] == NEWLINE
    ensures After(data, end) == Finish(CodeBefore(After(data, i), i), end, Directive)
    ensures end < |data| ==> ModeAt(data, end) == ModeAt(data, i).(lineStart := true)
  {
    if end > i + 1 {
      InsideDirective(data, i, end - 1);
    }
  }

  /** Where the directive that begins at `i` ends: after the first line break, or with the text. */
  method DirectiveEnd(data: seq<byte>, i: nat) returns (end: nat)
    requires i < |data| && data[i] != NEWLINE
    ensures i < end <= |data| && NEWLINE !in data[i..end - 1]
    ensures end == |data| || data[end - 1] == NEWLINE
  {
    var length := |data| - i;
    for j := i to |data|
      invariant NEWLINE !in data[i..j] && length == |data| - i
    {
      if data[j] == NEWLINE {
        return j + 1;
      }
    }
    end := i + length;
    assert data[i..] == data[i..end - 1] + [data[end - 1]];
  }

  /** What the variables of the loop stand for before byte `i`; a comment mark or an escape at the very end of the
      text leaves `i` beyond it. */
  ghost predicate InStep(data: seq<byte>, i: nat, p: Progress, m: Mode) {
    if i < |data| then After(data, i) == p && ModeAt(data, i) == m else After(data, |data|) == p
  }

  lemma OneByte(data: seq<byte>, i: nat, p: Progress, m: Mode)
    requires i < |data| && InStep(data, i, p, m)
    ensures InStep(data, i + 1, Advance(p, m, data[i], i + 1, i + 1 == |data|), Step(m, data[i], Follower(data, i)))
  {
  }

  /** Two bytes taken at once, the second of them skipped. */
  lemma TwoBytes(data: seq<byte>, i: nat, p: Progress, m: Mode, m': Mode)
    requires i < |data| && InStep(data, i, p, m)
    requires Advance(p, m, data[i], i + 1, i + 1 == |data|) == p && !m'.inDirective
    requires Step(m, data[i], Follower(data, i)) == m'.(skip := true)
    ensures InStep(data, i + 2, p, m'.(skip := false))
  {
    OneByte(data, i, p, m);
    if i + 1 < |data| {
      OneByte(data, i + 1, p, m'.(skip := true));
    }
  }

  method ScanRaw(data: seq<byte>) returns (chunks: seq<Chunk>)
    ensures chunks == RawChunks(data)
  {
    chunks := [];
    var start, depth, lineStart := 0, 0, true;
    var inString: byte := 0;
    var inLineComment, inBlockComment := false, false;
    var i := 0;
    while i < |data|
      invariant InStep(data, i, Progress(chunks, start),
                       Mode(depth, lineStart, inString, inLineComment, inBlockComment, false, false))
    {
      var current := data[i];
      var follower := Follower(data, i);
      ghost var p := Progress(chunks, start);
      ghost var m := Mode(depth, lineStart, inString, inLineComment, inBlockComment, false, false);
      OneByte(data, i, p, m);
      if inLineComment {
        if current == NEWLINE {
          inLineComment, lineStart := false, true;
        }
        i := i + 1;
        continue;
      }
      if inBlockComment {
        if current == STAR && follower == SLASH {
          inBlockComment := false;
          TwoBytes(data, i, p, m, m.(inBlock := false));
          i := i + 1;
        }
        i := i + 1;
        continue;
      }
      if inString != 0 {
        if current == BACKSLASH {
          TwoBytes(data, i, p, m, m);
          i := i + 2;
          continue;
        }
        if current == inString {
          inString := 0;
        }
        i := i + 1;
        continue;
      }
      if current == SLASH && follower == SLASH {
        inLineComment := true;
        TwoBytes(data, i, p, m, m.(inLine := true));
        i := i + 2;
        continue;
      }
      if current == SLASH && follower == STAR {
        inBlockComment := true;
        TwoBytes(data, i, p, m, m.(inBlock := true));
        i := i + 2;
        continue;
      }
      if current == DOUBLE_QUOTE || current == QUOTE {
        inString, lineStart := current, false;
        i := i + 1;
        continue;
      }
      if lineStart && (current == HASH || current == DOT) {
        var end := DirectiveEnd(data, i);
        PastDirective(data, i, end);
        if i > start {
          chunks := chunks + [Chunk(start, i, Code)];
        }
        chunks := chunks + [Chunk(i, end, Directive)];
        i := end;
        start, lineStart := i, true;
        continue;
      }
      if !IsSpace(current) {
        lineStart := false;
      }
      if current == OPEN_BRACE {
        depth := depth + 1;
      } else if current == CLOSE_BRACE {
        if depth > 0 {
          depth := depth - 1;
        }
        if depth == 0 {
          chunks := chunks + [Chunk(start, i + 1, Block)];
          start := i + 1;
        }
      } else if current == SEMICOLON {
        if depth == 0 {
          chunks := chunks + [Chunk(start, i + 1, Statement)];
          start := i + 1;
        }
      } else if current == NEWLINE {
        lineStart := true;
      }
      i := i + 1;
    }
    if start < |data| {
      chunks := chunks + [Chunk(start, |data|, Code)];
    }
  }

  // ---------------------------------------------------------------- trimming

  /** The first byte from `start` on that is no white space, or `end`. */
  function FirstInk(data: seq<byte>, start: nat, end: nat): (s: nat)
    requires start <= end <= |data|
    ensures start <= s <= end
    decreases end - start
  {
    if start < end && IsSpace(data[start]) then FirstInk(data, start + 1, end) else start
  }

  /** The place after the last byte before `end` that is no white space, or `start`. */
  function LastInk(data: seq<byte>, start: nat, end: nat): (e: nat)
    requires start <= end <= |data|
    ensures start <= e <= end
    decreases end - start
  {
    if start < end && IsSpace(data[end - 1]) then LastInk(data, start, end - 1) else end
  }

  function Trimmed(data: seq<byte>, c: Chunk): Chunk
    requires c.start <= c.end <= |data|
  {
    var s := FirstInk(data, c.start, c.end);
    Chunk(s, LastInk(data, s, c.end), c.kind)
  }

  method TrimStart(data: seq<byte>, start: nat, end: nat) returns (s: nat)
    requires start <= end <= |data|
    ensures s == FirstInk(data, start, end)
  {
    s := start;
    while s < end && IsSpace(data[s])
      invariant start <= s <= end && FirstInk(data, start, end) == FirstInk(data, s, end)
    {
      s := s + 1;
    }
  }

  method TrimEnd(data: seq<byte>, start: nat, end: nat) returns (e: nat)
    requires start <= end <= |data|
    ensures e == LastInk(data, start, end)
  {
    e := end;
    while e > start && IsSpace(data[e - 1])
      invariant start <= e <= end && LastInk(data, start, end) == LastInk(data, start, e)
    {
      e := e - 1;
    }
  }

  /** `t` is `c` without the white space at its ends. */
  ghost predicate Trims(data: seq<byte>, c: Chunk, t: Chunk) {
    && c.start <= t.start <= t.end <= c.end <= |data| && t.kind == c.kind
    && (forall k :: c.start <= k < t.start || t.end <= k < c.end ==> IsSpace(data[k]))
    && (t.start < t.end ==> !IsSpace(data[t.start]) && !IsSpace(data[t.end - 1]))
  }

  lemma {:induction false} FirstInkSkipsSpace(data: seq<byte>, start: nat, end: nat)
    requires start <= end <= |data|
    ensures var s := FirstInk(data, start, end);
            (forall k :: start <= k < s ==> IsSpace(data[k])) && (s < end ==> !IsSpace(data[s]))
    decreases end - start
  {
    if start < end && IsSpace(data[start]) {
      FirstInkSkipsSpace(data, start + 1, end);
    }
  }

  lemma {:induction false} LastInkSkipsSpace(data: seq<byte>, start: nat, end: nat)
    requires start <= end <= |data|
    ensures var e := LastInk(data, start, end);
            (forall k :: e <= k < end ==> IsSpace(data[k])) && (start < e ==> !IsSpace(data[e - 1]))
    decreases end - start
  {
    if start < end && IsSpace(data[end - 1]) {
      LastInkSkipsSpace(data, start, end - 1);
    }
  }

  lemma TrimmedTrims(data: seq<byte>, c: Chunk)
    requires c.start <= c.end <= |data|
    ensures Trims(data, c, Trimmed(data, c))
  {
    FirstInkSkipsSpace(data, c.start, c.end);
    LastInkSkipsSpace(data, FirstInk(data, c.start, c.end), c.end);
  }

  ghost predicate InText(data: seq<byte>, chunks: seq<Chunk>) {
    forall k :: 0 <= k < |chunks| ==> chunks[k].start <= chunks[k].end <= |data|
  }

  ghost function TrimmedAll(data: seq<byte>, chunks: seq<Chunk>): (t: seq<Chunk>)
    requires InText(data, chunks)
    ensures |t| == |chunks| && forall k {:trigger t[k]} :: 0 <= k < |t| ==> t[k] == Trimmed(data, chunks[k])
  {
    seq(|chunks|, k requires 0 <= k < |chunks| => Trimmed(data, chunks[k]))
  }

  /** Trims every chunk in place. */
  method TrimAll(data: seq<byte>, chunks: array<Chunk>)
    requires InText(data, chunks[..])
    modifies chunks
    ensures chunks[..] == TrimmedAll(data, old(chunks[..]))
  {
    ghost var raw := chunks[..];
    for i := 0 to chunks.Length
      invariant forall k :: 0 <= k < i ==> chunks[k] == TrimmedAll(data, raw)[k]
      invariant forall k :: i <= k < chunks.Length ==> chunks[k] == raw[k]
    {
      var s := TrimStart(data, chunks[i].start, chunks[i].end);
      chunks[i] := chunks[i].(start := s);
      var e := TrimEnd(data, chunks[i].start, chunks[i].end);
      chunks[i] := chunks[i].(end := e);
    }
  }

  /** The chunks that are not empty, in order. */
  function NonEmpty(chunks: seq<Chunk>): seq<Chunk> {
    if chunks == [] then []
    else
      var last := chunks[|chunks| - 1];
      NonEmpty(chunks[..|chunks| - 1]) + if last.start < last.end then [last] else []
  }

  lemma {:induction false} NonEmptyShorter(chunks: seq<Chunk>)
    ensures |NonEmpty(chunks)| <= |chunks|
  {
    if chunks != [] {
      NonEmptyShorter(chunks[..|chunks| - 1]);
    }
  }

  /** Moves the chunks that are not empty to the front of the same array. */
  method Compact(chunks: array<Chunk>) returns (count: nat)
    modifies chunks
    ensures count <= chunks.Length && chunks[..count] == NonEmpty(old(chunks[..]))
  {
    count := 0;
    ghost var before := chunks[..];
    for i := 0 to chunks.Length
      invariant count <= i && chunks[..count] == NonEmpty(before[..i])
      invariant chunks[i..] == before[i..]
    {
      assert before[..i + 1][..i] == before[..i] && chunks[i] == before[i];
      ghost var kept := chunks[..count];
      if chunks[i].start < chunks[i].end {
        chunks[count] := chunks[i];
        count := count + 1;
        assert chunks[..count] == kept + [before[i]];
      }
      assert chunks[i + 1..] == before[i + 1..];
    }
    assert before[..chunks.Length] == before;
  }

  // ---------------------------------------------------------------- the whole scan

  /** Ordered, disjoint, in bounds, none empty. */
  ghost predicate Apart(chunks: seq<Chunk>, limit: nat) {
    forall i {:trigger chunks[i]} :: 0 <= i < |chunks| ==>
      && chunks[i].start < chunks[i].end <= limit
      && (i > 0 ==> chunks[i - 1].end <= chunks[i].start)
  }

  ghost predicate Covered(chunks: seq<Chunk>, k: nat) {
    exists c :: c in chunks && c.start <= k < c.end
  }

  ghost predicate AllTrims(data: seq<byte>, raw: seq<Chunk>, trimmed: seq<Chunk>) {
    |trimmed| == |raw| && forall k {:trigger trimmed[k]} :: 0 <= k < |raw| ==> Trims(data, raw[k], trimmed[k])
  }

  lemma {:induction false} TrimmedApart(data: seq<byte>, raw: seq<Chunk>, trimmed: seq<Chunk>, to: nat)
    requires Tiles(raw, 0, to) && AllTrims(data, raw, trimmed)
    ensures Apart(NonEmpty(trimmed), to)
    decreases |raw|
  {
    if raw != [] {
      var n := |raw| - 1;
      assert Trims(data, raw[n], trimmed[n]);
      TrimmedApart(data, raw[..n], trimmed[..n], raw[n].start);
    }
  }

  lemma {:induction false} OutsideIsSpace(data: seq<byte>, raw: seq<Chunk>, trimmed: seq<Chunk>, to: nat, k: nat)
    requires Tiles(raw, 0, to) && to <= |data| && AllTrims(data, raw, trimmed) && k < to && !IsSpace(data[k])
    ensures Covered(NonEmpty(trimmed), k)
    decreases |raw|
  {
    if raw != [] {
      var n := |raw| - 1;
      assert Trims(data, raw[n], trimmed[n]);
      if k < raw[n].start {
        OutsideIsSpace(data, raw[..n], trimmed[..n], raw[n].start, k);
        var c :| c in NonEmpty(trimmed[..n]) && c.start <= k < c.end;
        assert c in NonEmpty(trimmed);
      } else {
        assert trimmed[n] in NonEmpty(trimmed);
      }
    }
  }

  lemma {:induction false} NonEmptyTrims(data: seq<byte>, raw: seq<Chunk>, trimmed: seq<Chunk>, c: Chunk)
    requires AllTrims(data, raw, trimmed) && c in NonEmpty(trimmed)
    ensures exists r :: r in raw && Trims(data, r, c)
    decreases |raw|
  {
    var n := |raw| - 1;
    assert Trims(data, raw[n], trimmed[n]);
    if c in NonEmpty(trimmed[..n]) {
      NonEmptyTrims(data, raw[..n], trimmed[..n], c);
    } else {
      assert raw[n] in raw;
    }
  }

  lemma RawInText(data: seq<byte>)
    ensures InText(data, RawChunks(data))
  {
    RawChunksTile(data);
    forall k | 0 <= k < |RawChunks(data)|
      ensures RawChunks(data)[k].start <= RawChunks(data)[k].end <= |data|
    {
      assert RightKind(data, RawChunks(data)[k]);
    }
  }

  /** The chunks of a text. */
  ghost function Chunks(data: seq<byte>): seq<Chunk> {
    RawInText(data);
    NonEmpty(TrimmedAll(data, RawChunks(data)))
  }

  /** They are ordered, disjoint and in bounds, each is a raw chunk without its surrounding white space, and every
      byte outside them is white space. */
  lemma ChunksAreSound(data: seq<byte>)
    ensures Apart(Chunks(data), |data|)
    ensures forall c :: c in Chunks(data) ==> exists r :: r in RawChunks(data) && Trims(data, r, c)
    ensures forall k :: 0 <= k < |data| && !IsSpace(data[k]) ==> Covered(Chunks(data), k)
  {
    var raw := RawChunks(data);
    RawChunksTile(data);
    RawInText(data);
    var trimmed := TrimmedAll(data, raw);
    forall k | 0 <= k < |raw|
      ensures Trims(data, raw[k], trimmed[k])
    {
      TrimmedTrims(data, raw[k]);
    }
    assert AllTrims(data, raw, trimmed);
    TrimmedApart(data, raw, trimmed, |data|);
    forall c | c in Chunks(data)
      ensures exists r :: r in raw && Trims(data, r, c)
    {
      NonEmptyTrims(data, raw, trimmed, c);
    }
    forall k | 0 <= k < |data| && !IsSpace(data[k])
      ensures Covered(Chunks(data), k)
    {
      OutsideIsSpace(data, raw, trimmed, |data|, k);
    }
  }

  method Scan(data: seq<byte>) returns (chunks: seq<Chunk>)
    ensures chunks == Chunks(data)
  {
    var raw := ScanRaw(data);
    RawInText(data);
    var buffer := new Chunk[|raw|](i requires 0 <= i < |raw| => raw[i]);
    assert buffer[..] == raw;
    TrimAll(data, buffer);
    var count := Compact(buffer);
    chunks := buffer[..count];
  }
}
