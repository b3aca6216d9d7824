/** The preprocessor: directives, the flat stack of conditionals, includes with their stack and cache. A char stands
    for one byte. Files, path resolution, macro expansion and the cache key are parameters. */
module Preprocessor {
  import opened Wrappers
  import opened Expression
  import L = LineScan

  /** How reading a line, a file ends: `Panicked` is a zero divisor in a condition. */
  datatype End = Fine | Failed | Panicked

  datatype Cond = Cond(active: bool, branchTaken: bool, parentActive: bool)

  datatype Env = Env(
    files: map<string, string>,
    resolve: string -> Option<string>,
    resolveInclude: (string, string) -> Option<string>,
    cacheKey: (string, Macros) -> string,
    expand: (string, Macros) -> string,
    preserveDefines: bool)

  // ---------------------------------------------------------------- lines and directives

  predicate HasPrefix(s: string, p: string) {
    |p| <= |s| && s[..|p|] == p
  }

  function TrimPrefix(s: string, p: string): string {
    if HasPrefix(s, p) then s[|p|..] else s
  }

  function TrimSetLeft(s: string, cut: string): string {
    if s != "" && s[0] in cut then TrimSetLeft(s[1..], cut) else s
  }

  function TrimSetRight(s: string, cut: string): string {
    if s != "" && s[|s| - 1] in cut then TrimSetRight(s[..|s| - 1], cut) else s
  }

  function TrimSet(s: string, cut: string): string {
    TrimSetRight(TrimSetLeft(s, cut), cut)
  }

  function WordEnd(s: string, from: nat): (e: nat)
    requires from <= |s|
    ensures from <= e <= |s| && (from < |s| && !IsTrimmed(s[from]) ==> from < e)
    decreases |s| - from
  {
    if from < |s| && !IsTrimmed(s[from]) then WordEnd(s, from + 1) else from
  }

  function Fields(s: string): seq<string>
    decreases |s|
  {
    var t := TrimLeft(s);
    if t == "" then []
    else
      var e := WordEnd(t, 0);
      [t[..e]] + Fields(t[e..])
  }

  function JoinBlank(parts: seq<string>): string {
    if parts == [] then ""
    else if |parts| == 1 then parts[0]
    else parts[0] + " " + JoinBlank(parts[1..])
  }

  datatype Directive =
    | Blank
    | Text(line: string)
    | Define(name: string, body: string, line: string)
    | Undef(name: string, line: string)
    | System(line: string)
    | Include(path: string)
    | ErrorLine
    | Other(line: string)
    | Nothing
    | IfDef(name: string)
    | IfNotDef(name: string)
    | If(condition: string)
    | Elif(condition: string)
    | BareElif
    | Else
    | EndIf

  /** What a line is, by the first prefix that fits. A directive without its argument is no directive, except a bare
      `#elif`. */
  function Classify(raw: string): Directive {
    var line := TrimSpace(raw);
    if !HasPrefix(line, "#") then if line == "" then Blank else Text(raw)
    else Parse(line, Fields(line))
  }

  function Parse(line: string, parts: seq<string>): Directive {
    var some := |parts| >= 2;
    if HasPrefix(line, "#define ") then
      if some then Define(parts[1], TrimSpace(TrimPrefix(line, "#define " + parts[1])), line) else Nothing
    else if HasPrefix(line, "#undef ") then
      if some then Undef(parts[1], line) else Nothing
    else if HasPrefix(line, "#include") then
      if some then ParseInclude(line, parts[1]) else Nothing
    else if HasPrefix(line, "#ifdef") then
      if some then IfDef(parts[1]) else Nothing
    else if HasPrefix(line, "#ifndef") then
      if some then IfNotDef(parts[1]) else Nothing
    else if HasPrefix(line, "#if") then
      if some then If(JoinBlank(parts[1..])) else Nothing
    else if HasPrefix(line, "#elif") then
      if some then Elif(JoinBlank(parts[1..])) else BareElif
    else if HasPrefix(line, "#else") then Else
    else if HasPrefix(line, "#endif") then EndIf
    else if HasPrefix(line, "#error") then ErrorLine
    else if HasPrefix(line, "#pragma") then Nothing
    else Other(line)
  }

  function ParseInclude(line: string, target: string): Directive {
    if HasPrefix(target, "<") && target[|target| - 1] == '>' then System(line)
    else
      var path := TrimSet(TrimSet(target, "\""), "<>");
      if path == "" then Nothing else Include(path)
  }

  predicate IsOpening(d: Directive) {
    d.IfDef? || d.IfNotDef? || d.If?
  }

  predicate IsBranching(d: Directive) {
    d.Elif? || d.BareElif? || d.Else?
  }

  predicate IsConditional(d: Directive) {
    IsOpening(d) || IsBranching(d) || d.EndIf?
  }

  predicate HasLine(d: Directive) {
    d.Define? || d.Undef? || d.System? || d.Other?
  }

  lemma ParsedLine(line: string)
    ensures var d := Parse(line, Fields(line)); !d.Blank? && !d.Text? && (HasLine(d) ==> d.line == line)
  {
  }

  // ---------------------------------------------------------------- conditionals

  function ParentActive(conds: seq<Cond>): bool {
    conds == [] || conds[|conds| - 1].active
  }

  function ShouldEmit(conds: seq<Cond>): bool {
    conds == [] || (conds[|conds| - 1].parentActive && conds[|conds| - 1].active)
  }

  /** The truth of an opening directive. A condition is evaluated whether or not its value can matter. */
  function Opens(macros: Macros, d: Directive): Option<bool>
    requires IsOpening(d)
  {
    match d
    case IfDef(name) => Some(name in macros)
    case IfNotDef(name) => Some(name !in macros)
    case If(condition) => Truthy(condition, macros)
  }

  function Truthy(condition: string, macros: Macros): Option<bool> {
    match Evaluate(condition, macros)
    case Panic => None
    case Value(v) => Some(v != 0)
  }

  function Top(conds: seq<Cond>, c: Cond): seq<Cond>
    requires conds != []
  {
    conds[|conds| - 1 := c]
  }

  /** The new stack, or nothing for a zero divisor. */
  function CondStep(macros: Macros, conds: seq<Cond>, d: Directive): Option<seq<Cond>>
    requires IsConditional(d)
  {
    if IsOpening(d) then
      match Opens(macros, d)
      case None => None
      case Some(v) =>
        var parent := ParentActive(conds);
        Some(conds + [Cond(parent && v, parent && v, parent)])
    else if conds == [] then Some(conds)
    else
      var top := conds[|conds| - 1];
      var open := top.parentActive && !top.branchTaken;
      match d
      case Elif(condition) =>
        if open then
          match Truthy(condition, macros)
          case None => None
          case Some(v) => Some(Top(conds, top.(active := v, branchTaken := v)))
        else Some(Top(conds, top.(active := false)))
      case BareElif => Some(if open then conds else Top(conds, top.(active := false)))
      case Else =>
        Some(Top(conds, if open then top.(active := true, branchTaken := true) else top.(active := false)))
      case EndIf => Some(conds[..|conds| - 1])
  }

  // ---------------------------------------------------------------- lines and files

  datatype Core = Core(macros: Macros, cache: map<string, string>, stack: seq<string>)

  /** After a line: the emitted lines, and how it ended. */
  datatype Plain = Plain(core: Core, out: seq<string>, end: End)

  /** After some lines; the conditionals matter only if all went well. */
  datatype After = After(core: Core, conds: seq<Cond>, out: seq<string>, end: End)

  datatype Processed = Processed(core: Core, text: string, end: End)

  /** The files that can still be entered. */
  function Room(env: Env, stack: seq<string>): nat {
    |env.files.Keys - Members(stack)|
  }

  function Members(stack: seq<string>): set<string> {
    set s | s in stack
  }

  lemma RoomShrinks(env: Env, stack: seq<string>, path: string)
    requires path in env.files && path !in stack
    ensures Room(env, stack + [path]) < Room(env, stack)
  {
    var before, after := env.files.Keys - Members(stack), env.files.Keys - Members(stack + [path]);
    assert after == before - {path};
    assert path in before;
  }

  function JoinLines(lines: seq<string>): string {
    if lines == [] then ""
    else if |lines| == 1 then lines[0]
    else JoinLines(lines[..|lines| - 1]) + "\n" + lines[|lines| - 1]
  }

  /** A line that is no conditional. `#error` and unknown directives do not look at the conditionals; an included
      file leaves its definitions and no text. */
  function PlainStep(env: Env, core: Core, active: bool, d: Directive, path: string): (r: Plain)
    requires !IsConditional(d)
    ensures r.core.stack == core.stack
    decreases Room(env, core.stack), 1
  {
    match d
    case Blank => Plain(core, [], Fine)
    case Nothing => Plain(core, [], Fine)
    case ErrorLine => Plain(core, [], Failed)
    case Other(line) => Plain(core, [line], Fine)
    case Text(line) => Plain(core, if active then [line] else [], Fine)
    case System(line) => Plain(core, if active then [line] else [], Fine)
    case Define(name, body, line) =>
      if !active then Plain(core, [], Fine)
      else
        Plain(core.(macros := core.macros[name := env.expand(body, core.macros)]),
              if env.preserveDefines then [line] else [], Fine)
    case Undef(name, line) =>
      if !active then Plain(core, [], Fine)
      else Plain(core.(macros := core.macros - {name}), if env.preserveDefines then [line] else [], Fine)
    case Include(target) =>
      if !active then Plain(core, [], Fine)
      else
        match env.resolveInclude(target, path)
        case None => Plain(core, [], Failed)
        case Some(resolved) =>
          var p := FileStep(env, core, resolved, core.macros);
          Plain(p.core, [], p.end)
  }

  function LineStep(env: Env, core: Core, conds: seq<Cond>, d: Directive, path: string): (r: After)
    ensures r.core.stack == core.stack
    decreases Room(env, core.stack), 2
  {
    if IsConditional(d) then
      match CondStep(core.macros, conds, d)
      case None => After(core, [], [], Panicked)
      case Some(next) => After(core, next, [], Fine)
    else
      var p := PlainStep(env, core, ShouldEmit(conds), d, path);
      After(p.core, if p.end.Fine? then conds else [], p.out, p.end)
  }

  function LinesStep(env: Env, core: Core, conds: seq<Cond>, lines: seq<string>, path: string): (r: After)
    ensures r.core.stack == core.stack
    decreases Room(env, core.stack), 3, |lines|
  {
    if lines == [] then After(core, conds, [], Fine)
    else
      var first := LineStep(env, core, conds, Classify(lines[0]), path);
      if !first.end.Fine? then first
      else
        var rest := LinesStep(env, first.core, first.conds, lines[1..], path);
        rest.(out := first.out + rest.out)
  }

  /** One file: refused when it is on the stack, taken from the cache when it was read before under the same key. */
  function FileStep(env: Env, core: Core, path: string, keyMacros: Macros): (r: Processed)
    ensures r.core.stack == core.stack
    decreases Room(env, core.stack), 0
  {
    if path == "" then Processed(core, "", Fine)
    else
      match env.resolve(path)
      case None => Processed(core, "", Failed)
      case Some(resolved) =>
        var key := env.cacheKey(resolved, keyMacros);
        if resolved in core.stack then Processed(core, "", Failed)
        else if key in core.cache then Processed(core, core.cache[key], Fine)
        else if resolved !in env.files then Processed(core, "", Failed)
        else
          RoomShrinks(env, core.stack, resolved);
          var inner := LinesStep(env, core.(stack := core.stack + [resolved]), [],
                                 L.LinesFrom(env.files[resolved], 0), resolved);
          var left := inner.core.(stack := core.stack);
          if !inner.end.Fine? then Processed(left, "", inner.end)
          else
            var text := JoinLines(inner.out);
            Processed(left.(cache := left.cache[key := text]), text, Fine)
  }

  /** A file that is there, not on the stack and not in the cache, means its lines. */
  lemma NewFileStep(env: Env, core: Core, path: string, keyMacros: Macros, resolved: string, key: string)
    requires path != "" && env.resolve(path) == Some(resolved) && key == env.cacheKey(resolved, keyMacros)
    requires resolved in env.files && resolved !in core.stack && key !in core.cache
    ensures var inner := LinesStep(env, core.(stack := core.stack + [resolved]), [],
                                   L.LinesFrom(env.files[resolved], 0), resolved);
      var left := inner.core.(stack := core.stack);
      FileStep(env, core, path, keyMacros) ==
      if inner.end.Fine? then
        Processed(left.(cache := left.cache[key := JoinLines(inner.out)]), JoinLines(inner.out), Fine)
      else Processed(left, "", inner.end)
  {
  }

  // ---------------------------------------------------------------- the processor

  ghost predicate Distinct(s: seq<string>) {
    forall k, l {:trigger s[k], s[l]} :: 0 <= k < l < |s| ==> s[k] != s[l]
  }

  function Emit(out: seq<string>, r: After): After {
    r.(out := out + r.out)
  }

  /** Whether the lines from a position on, on top of what has been emitted, come to what the whole file means. */
  type Expectation = (Core, seq<Cond>, nat, seq<string>) -> bool

  /** The loops over a file pass the expectation on and need not look into it; it is opened where a line is read. */
  ghost predicate IsExpectation(expected: Expectation, env: Env, whole: After, source: string, path: string) {
    forall core, conds, from: nat, emitted {:trigger IsOpen(core, conds, from, emitted)} :: from <= |source| ==>
      (expected(core, conds, from, emitted) <==>
       whole == Emit(emitted, LinesStep(env, core, conds, L.LinesFrom(source, from), path)))
  }

  predicate IsOpen(core: Core, conds: seq<Cond>, from: nat, emitted: seq<string>) {
    true
  }

  ghost function Expect(env: Env, whole: After, source: string, path: string): (expected: Expectation)
    ensures IsExpectation(expected, env, whole, source, path)
  {
    (core: Core, conds: seq<Cond>, from: nat, emitted: seq<string>) =>
      from <= |source| && whole == Emit(emitted, LinesStep(env, core, conds, L.LinesFrom(source, from), path))
  }

  /** One more line read. */
  lemma ReadOne(env: Env, core: Core, conds: seq<Cond>, lines: seq<string>, path: string, emitted: seq<string>)
    requires lines != []
    ensures var first := LineStep(env, core, conds, Classify(lines[0]), path);
      Emit(emitted, LinesStep(env, core, conds, lines, path)) ==
      if first.end.Fine? then Emit(emitted + first.out, LinesStep(env, first.core, first.conds, lines[1..], path))
      else Emit(emitted, first)
  {
    var first := LineStep(env, core, conds, Classify(lines[0]), path);
    if first.end.Fine? {
      var rest := LinesStep(env, first.core, first.conds, lines[1..], path);
      assert emitted + (first.out + rest.out) == emitted + first.out + rest.out;
    }
  }

  lemma JoinOneMore(lines: seq<string>, line: string)
    ensures JoinLines(lines + [line]) == if lines == [] then line else JoinLines(lines) + "\n" + line
  {
    assert (lines + [line])[..|lines|] == lines;
  }

  class Processor {
    const env: Env
    var macros: Macros
    var cache: map<string, string>
    var includeStack: seq<string>
    var condStack: seq<Cond>

    /** No file is on the include stack twice. */
    ghost predicate Valid()
      reads this
    {
      Distinct(includeStack)
    }

    ghost function Now(): Core
      reads this
    {
      Core(macros, cache, includeStack)
    }

    constructor (env: Env, macros: Macros)
      ensures Valid() && this.env == env && Now() == Core(macros, map[], []) && condStack == []
    {
      this.env, this.macros := env, macros;
      cache, includeStack, condStack := map[], [], [];
    }

    method IsInStack(path: string) returns (found: bool)
      ensures found <==> path in includeStack
    {
      for i := 0 to |includeStack|
        invariant path !in includeStack[..i]
      {
        if includeStack[i] == path {
          return true;
        }
        assert includeStack[..i + 1] == includeStack[..i] + [includeStack[i]];
      }
      assert includeStack[..|includeStack|] == includeStack;
      return false;
    }

    /** Processes a file. However it ends, the include stack and the conditionals are those from before. */
    method Process(path: string, keyMacros: Macros) returns (text: string, end: End)
      requires Valid()
      modifies this
      ensures Processed(Now(), text, end) == FileStep(env, old(Now()), path, keyMacros)
      ensures includeStack == old(includeStack) && condStack == old(condStack)
      decreases Room(env, includeStack), 1
    {
      if path == "" {
        return "", Fine;
      }
      var resolution := env.resolve(path);
      if resolution.None? {
        return "", Failed;
      }
      var resolved := resolution.value;
      var cyclic := IsInStack(resolved);
      if cyclic {
        return "", Failed;
      }
      var key := env.cacheKey(resolved, keyMacros);
      if key in cache {
        return cache[key], Fine;
      }
      if resolved !in env.files {
        return "", Failed;
      }
      text, end := ProcessNew(path, resolved, key, keyMacros);
    }

    /** A file that is there, not on the stack and not in the cache. */
    method ProcessNew(path: string, resolved: string, key: string, ghost keyMacros: Macros)
      returns (text: string, end: End)
      requires Valid() && path != "" && env.resolve(path) == Some(resolved) && key == env.cacheKey(resolved, keyMacros)
      requires resolved in env.files && resolved !in includeStack && key !in cache
      modifies this
      ensures Processed(Now(), text, end) == FileStep(env, old(Now()), path, keyMacros)
      ensures includeStack == old(includeStack) && condStack == old(condStack)
      decreases Room(env, includeStack), 0
    {
      RoomShrinks(env, includeStack, resolved);
      NewFileStep(env, Now(), path, keyMacros, resolved, key);
      includeStack := includeStack + [resolved];
      var prevCond := condStack;
      condStack := [];
      text, end := ProcessText(env.files[resolved], resolved);
      if end.Fine? {
        cache := cache[key := text];
      } else {
        text := "";
      }
      includeStack := includeStack[..|includeStack| - 1];
      condStack := prevCond;
    }

    /** Reading has reached a position: the line it is in begins at `lineStart`, and what has been read so far and what
        is still to read are what is expected. */
    ghost predicate Reached(expected: Expectation, source: string, lineStart: nat, position: nat, emitted: seq<string>)
      reads this
    {
      && lineStart <= position <= |source| && Pending(source, lineStart, position)
      && expected(Now(), condStack, lineStart, emitted)
    }

    /** The output so far, and whether there is any. */
    static ghost predicate Shows(out: string, started: bool, emitted: seq<string>) {
      out == JoinLines(emitted) && (started <==> emitted != [])
    }

    /** One line of the file: its text goes to the output, or reading stops. */
    method ReadLine(source: string, lineStart: nat, lineEnd: nat, path: string, out: string, started: bool,
                    ghost emitted: seq<string>, ghost expected: Expectation, ghost whole: After)
      returns (out': string, started': bool, end: End, ghost emitted': seq<string>)
      requires Valid() && IsExpectation(expected, env, whole, source, path)
      requires lineStart < |source| && Reached(expected, source, lineStart, lineEnd, emitted)
      requires lineEnd < |source| ==> source[lineEnd] == '\n'
      requires Shows(out, started, emitted)
      modifies this
      ensures includeStack == old(includeStack)
      ensures end.Fine? ==>
        && (var next := if lineEnd < |source| then lineEnd + 1 else lineEnd;
            Reached(expected, source, next, next, emitted'))
        && Shows(out', started', emitted')
      ensures !end.Fine? ==> whole.end == end && whole.core == Now()
      decreases Room(env, includeStack), 5
    {
      ghost var before, conds := Now(), condStack;
      var line := source[lineStart..lineEnd];
      ghost var lines := L.LinesFrom(source, lineStart);
      ghost var step := LineStep(env, before, conds, Classify(line), path);
      LinesBegin(source, lineStart, lineEnd);
      assert IsOpen(before, conds, lineStart, emitted);
      ReadOne(env, before, conds, lines, path, emitted);
      emitted' := emitted + step.out;
      out', started', end := ProcessSourceLine(line, path, out, started, emitted);
      assert IsOpen(Now(), condStack, if lineEnd < |source| then lineEnd + 1 else lineEnd, emitted');
    }

    method ProcessSourceLine(line: string, path: string, out: string, started: bool, ghost emitted: seq<string>)
      returns (out': string, started': bool, end: End)
      requires Valid() && Shows(out, started, emitted)
      modifies this
      ensures includeStack == old(includeStack)
      ensures var r := LineStep(env, old(Now()), old(condStack), Classify(line), path);
        && end == r.end && Now() == r.core
        && (end.Fine? ==> condStack == r.conds && Shows(out', started', emitted + r.out))
      decreases Room(env, includeStack), 4
    {
      ghost var r := LineStep(env, Now(), condStack, Classify(line), path);
      var trimmed := TrimSpace(line);
      var result, keep := "", false;
      end := Fine;
      if HasPrefix(trimmed, "#") {
        result, keep, end := HandleDirective(trimmed, path);
        keep := keep && result != "";
      } else if ShouldEmit(condStack) && trimmed != "" {
        result, keep := line, true;
      }
      out', started' := out, started;
      assert emitted + [] == emitted;
      if end.Fine? && keep {
        JoinOneMore(emitted, result);
        out' := if started then out + "\n" + result else result;
        started' := true;
      }
    }

    method HandleDirective(line: string, path: string) returns (result: string, keep: bool, end: End)
      requires Valid() && HasPrefix(line, "#")
      modifies this
      ensures includeStack == old(includeStack)
      ensures var r := LineStep(env, old(Now()), old(condStack), Parse(line, Fields(line)), path);
        && end == r.end && Now() == r.core
        && (end.Fine? ==> condStack == r.conds && r.out == if keep && result != "" then [result] else [])
      decreases Room(env, includeStack), 3
    {
      var d := Parse(line, Fields(line));
      if IsConditional(d) {
        end := HandleConditional(d, path);
        return "", false, end;
      }
      ParsedLine(line);
      result, keep, end := HandlePlain(d, path);
    }

    /** A directive that is no conditional. */
    method HandlePlain(d: Directive, path: string) returns (result: string, keep: bool, end: End)
      requires Valid() && !IsConditional(d) && !d.Blank? && !d.Text? && (HasLine(d) ==> d.line != "")
      modifies this
      ensures includeStack == old(includeStack) && condStack == old(condStack)
      ensures var r := PlainStep(env, old(Now()), ShouldEmit(old(condStack)), d, path);
        && end == r.end && Now() == r.core
        && (end.Fine? ==> r.out == if keep && result != "" then [result] else [])
      decreases Room(env, includeStack), 2
    {
      if !ShouldEmit(condStack) && (d.Define? || d.Undef? || d.Include? || d.System?) {
        return "", false, Fine;
      }
      match d
      case Define(name, body, line) =>
        macros := macros[name := env.expand(body, macros)];
        return line, env.preserveDefines, Fine;
      case Undef(name, line) =>
        macros := macros - {name};
        return line, env.preserveDefines, Fine;
      case System(line) => return line, true, Fine;
      case Other(line) => return line, true, Fine;
      case ErrorLine => return "", false, Failed;
      case Include(target) =>
        var resolution := env.resolveInclude(target, path);
        if resolution.None? {
          return "", false, Failed;
        }
        result, end := Process(resolution.value, macros);
        return result, false, end;
      case Nothing => return "", false, Fine;
    }

    method HandleConditional(d: Directive, ghost path: string) returns (end: End)
      requires IsConditional(d)
      modifies `condStack
      ensures var r := LineStep(env, old(Now()), old(condStack), d, path);
        end == r.end && Now() == r.core && r.out == [] && (end.Fine? ==> condStack == r.conds)
    {
      if IsOpening(d) {
        var truth := Opens(macros, d);
        if truth.None? {
          return Panicked;
        }
        var parentActive := |condStack| == 0 || condStack[|condStack| - 1].active;
        var active := parentActive && truth.value;
        condStack := condStack + [Cond(active, active, parentActive)];
        return Fine;
      }
      if |condStack| == 0 {
        return Fine;
      }
      var state := condStack[|condStack| - 1];
      match d
      case Elif(condition) =>
        if state.parentActive && !state.branchTaken {
          var truth := Truthy(condition, macros);
          if truth.None? {
            return Panicked;
          }
          SetTop(state.(active := truth.value, branchTaken := truth.value));
        } else {
          SetTop(state.(active := false));
        }
        return Fine;
      case BareElif =>
        if !(state.parentActive && !state.branchTaken) {
          SetTop(state.(active := false));
        }
        return Fine;
      case Else =>
        if state.parentActive && !state.branchTaken {
          SetTop(state.(active := true, branchTaken := true));
        } else {
          SetTop(state.(active := false));
        }
        return Fine;
      case EndIf =>
        condStack := condStack[..|condStack| - 1];
        return Fine;
    }

    method SetTop(state: Cond)
      requires condStack != []
      modifies `condStack
      ensures condStack == Top(old(condStack), state)
    {
      condStack := condStack[|condStack| - 1 := state];
    }

    /** Every line of a file, in the order of the text: newlines come from the block scanner, 64 blocks at a time, and
        from a search in the bytes behind the last full block. */
    method ProcessText(source: string, path: string) returns (text: string, end: End)
      requires Valid()
      modifies this
      ensures includeStack == old(includeStack)
      ensures var r := LinesStep(env, old(Now()), old(condStack), L.LinesFrom(source, 0), path);
        && end == r.end && Now() == r.core && (end.Fine? ==> condStack == r.conds && text == JoinLines(r.out))
      decreases Room(env, includeStack), 10
    {
      ghost var whole := LinesStep(env, Now(), condStack, L.LinesFrom(source, 0), path);
      var fullLength := |source| - |source| % 32;
      ghost var expected := Expect(env, whole, source, path);
      NothingRead(expected, whole, source, path);
      ghost var emitted;
      var lineStart, out, started;
      lineStart, out, started, end, emitted := ProcessFullBlocks(source, fullLength, path, expected, whole);
      if !end.Fine? {
        return "", end;
      }
      text, end := ProcessTail(source, fullLength, lineStart, path, out, started, emitted, expected, whole);
    }

    /** At the start of a file everything is still to read. */
    lemma NothingRead(expected: Expectation, whole: After, source: string, path: string)
      requires IsExpectation(expected, env, whole, source, path)
      requires whole == LinesStep(env, Now(), condStack, L.LinesFrom(source, 0), path)
      ensures Reached(expected, source, 0, 0, []) && Shows("", false, [])
    {
      assert [] + whole.out == whole.out;
      assert IsOpen(Now(), condStack, 0, []);
    }

    method ProcessFullBlocks(source: string, fullLength: nat, path: string, ghost expected: Expectation,
                             ghost whole: After)
      returns (lineStart: nat, out: string, started: bool, end: End, ghost emitted: seq<string>)
      requires Valid() && IsExpectation(expected, env, whole, source, path)
      requires fullLength <= |source| && fullLength % 32 == 0
      requires Reached(expected, source, 0, 0, [])
      modifies this
      ensures includeStack == old(includeStack)
      ensures end.Fine? ==>
        Reached(expected, source, lineStart, fullLength, emitted) && Shows(out, started, emitted)
      ensures !end.Fine? ==> whole.end == end && whole.core == Now()
      decreases Room(env, includeStack), 9
    {
      lineStart, out, started, end, emitted := 0, "", false, Fine, [];
      var scanOffset: nat := 0;
      while scanOffset < fullLength
        invariant includeStack == old(includeStack) && end.Fine?
        invariant scanOffset % 32 == 0 && scanOffset <= fullLength
        invariant Reached(expected, source, lineStart, scanOffset, emitted) && Shows(out, started, emitted)
      {
        var blockCount := L.Min((fullLength - scanOffset) / 32, 64);
        BlocksLeft(fullLength, scanOffset);
        lineStart, out, started, end, emitted :=
          ProcessBlocks(source, scanOffset, blockCount, lineStart, path, out, started, emitted, expected, whole);
        if !end.Fine? {
          return;
        }
        scanOffset := scanOffset + 32 * blockCount;
      }
    }

    /** The search in the bytes reaches the next newline, or the end. */
    lemma TailReached(expected: Expectation, source: string, lineStart: nat, position: nat, emitted: seq<string>)
      requires Reached(expected, source, lineStart, position, emitted)
      ensures var e := L.NextNewline(source, position);
        && Reached(expected, source, lineStart, e, emitted) && (e < |source| ==> source[e] == '\n')
    {
    }

    /** The lines that end in a newline behind the last full block. */
    method TailLines(source: string, from: nat, start: nat, path: string, before: string, begun: bool,
                     ghost already: seq<string>, ghost expected: Expectation, ghost whole: After)
      returns (lineStart: nat, out: string, started: bool, end: End, ghost emitted: seq<string>)
      requires Valid() && IsExpectation(expected, env, whole, source, path)
      requires Reached(expected, source, start, from, already) && Shows(before, begun, already)
      modifies this
      ensures includeStack == old(includeStack)
      ensures end.Fine? ==>
        Reached(expected, source, lineStart, |source|, emitted) && Shows(out, started, emitted)
      ensures !end.Fine? ==> whole.end == end && whole.core == Now()
      decreases Room(env, includeStack), 8
    {
      lineStart, out, started, end, emitted := start, before, begun, Fine, already;
      var tailOffset: nat := from;
      while tailOffset < |source|
        invariant includeStack == old(includeStack) && end.Fine?
        invariant Reached(expected, source, lineStart, tailOffset, emitted) && Shows(out, started, emitted)
        decreases |source| - tailOffset
      {
        var lineEnd := L.NextNewline(source, tailOffset);
        TailReached(expected, source, lineStart, tailOffset, emitted);
        if lineEnd == |source| {
          return;
        }
        out, started, end, emitted :=
          ReadLine(source, lineStart, lineEnd, path, out, started, emitted, expected, whole);
        if !end.Fine? {
          return;
        }
        lineStart := lineEnd + 1;
        tailOffset := lineStart;
      }
    }

    method ProcessTail(source: string, from: nat, start: nat, path: string, before: string, begun: bool,
                       ghost already: seq<string>, ghost expected: Expectation, ghost whole: After)
      returns (text: string, end: End)
      requires Valid() && IsExpectation(expected, env, whole, source, path)
      requires Reached(expected, source, start, from, already) && Shows(before, begun, already)
      modifies this
      ensures includeStack == old(includeStack)
      ensures end == whole.end && Now() == whole.core
      ensures end.Fine? ==> condStack == whole.conds && text == JoinLines(whole.out)
      decreases Room(env, includeStack), 9
    {
      var lineStart, out, started;
      ghost var emitted;
      lineStart, out, started, end, emitted :=
        TailLines(source, from, start, path, before, begun, already, expected, whole);
      if !end.Fine? {
        return "", end;
      }
      if lineStart < |source| {
        out, started, end, emitted :=
          ReadLine(source, lineStart, |source|, path, out, started, emitted, expected, whole);
        if !end.Fine? {
          return "", end;
        }
      }
      AllRead(expected, whole, source, path, emitted);
      text := if started then out else "";
    }

    /** At the end of a file nothing is left to read. */
    lemma AllRead(expected: Expectation, whole: After, source: string, path: string, emitted: seq<string>)
      requires IsExpectation(expected, env, whole, source, path)
      requires Reached(expected, source, |source|, |source|, emitted)
      ensures whole == After(Now(), condStack, emitted, Fine)
    {
      assert emitted + [] == emitted;
      assert IsOpen(Now(), condStack, |source|, emitted);
    }

    /** The lines that end in some blocks. */
    method ProcessBlocks(source: string, scanOffset: nat, blockCount: nat, from: nat, path: string, out: string,
                         started: bool, ghost emitted: seq<string>, ghost expected: Expectation, ghost whole: After)
      returns (lineStart: nat, out': string, started': bool, end: End, ghost emitted': seq<string>)
      requires Valid() && IsExpectation(expected, env, whole, source, path)
      requires blockCount <= 64 && scanOffset + 32 * blockCount <= |source|
      requires Reached(expected, source, from, scanOffset, emitted) && Shows(out, started, emitted)
      modifies this
      ensures includeStack == old(includeStack)
      ensures end.Fine? ==>
        Reached(expected, source, lineStart, scanOffset + 32 * blockCount, emitted') && Shows(out', started', emitted')
      ensures !end.Fine? ==> whole.end == end && whole.core == Now()
      decreases Room(env, includeStack), 8
    {
      var none: L.Mask := seq(32, _ => false);
      var scanArena := new L.Block[64](_ => L.Block(none, none, none));
      var newlineArena := new nat[64 * 32];
      var data := source[scanOffset..scanOffset + 32 * blockCount];
      var scanned, newlineCount := L.ScanBlocks(data, scanArena, newlineArena);
      assert scanned == blockCount;
      lineStart, out', started', end, emitted' :=
        ProcessOffsets(source, scanOffset, data, newlineArena[..newlineCount], from, path, out, started, emitted,
                       expected, whole);
    }

    method ProcessOffsets(source: string, scanOffset: nat, ghost data: string, offsets: seq<nat>, from: nat,
                          path: string,
                          out: string, started: bool, ghost emitted: seq<string>, ghost expected: Expectation,
                          ghost whole: After)
      returns (lineStart: nat, out': string, started': bool, end: End, ghost emitted': seq<string>)
      requires Valid() && IsExpectation(expected, env, whole, source, path)
      requires scanOffset + |data| <= |source| && PieceOf(source, scanOffset, data)
      requires offsets == L.Newlines(data, |data|)
      requires Reached(expected, source, from, scanOffset, emitted) && Shows(out, started, emitted)
      modifies this
      ensures includeStack == old(includeStack)
      ensures end.Fine? ==>
        Reached(expected, source, lineStart, scanOffset + |data|, emitted') && Shows(out', started', emitted')
      ensures !end.Fine? ==> whole.end == end && whole.core == Now()
      decreases Room(env, includeStack), 7
    {
      lineStart, out', started', end, emitted' := from, out, started, Fine, emitted;
      for index := 0 to |offsets|
        invariant includeStack == old(includeStack) && end.Fine?
        invariant Reached(expected, source, lineStart, Before(scanOffset, offsets, index), emitted')
        invariant Shows(out', started', emitted')
      {
        lineStart, out', started', end, emitted' :=
          ReadOffset(source, scanOffset, data, offsets, index, lineStart, path, out', started', emitted', expected,
                     whole);
        if !end.Fine? {
          return;
        }
      }
      NextReached(expected, source, scanOffset, data, offsets, |offsets|, lineStart, emitted');
    }

    /** The line that ends at newline number `index`. */
    method ReadOffset(source: string, scanOffset: nat, ghost data: string, offsets: seq<nat>, index: nat, from: nat,
                      path: string, out: string, started: bool, ghost emitted: seq<string>,
                      ghost expected: Expectation, ghost whole: After)
      returns (lineStart: nat, out': string, started': bool, end: End, ghost emitted': seq<string>)
      requires Valid() && IsExpectation(expected, env, whole, source, path)
      requires scanOffset + |data| <= |source| && PieceOf(source, scanOffset, data)
      requires offsets == L.Newlines(data, |data|) && index < |offsets|
      requires Reached(expected, source, from, Before(scanOffset, offsets, index), emitted)
      requires Shows(out, started, emitted)
      modifies this
      ensures includeStack == old(includeStack)
      ensures end.Fine? ==>
        && Reached(expected, source, lineStart, Before(scanOffset, offsets, index + 1), emitted')
        && Shows(out', started', emitted')
      ensures !end.Fine? ==> whole.end == end && whole.core == Now()
      decreases Room(env, includeStack), 6
    {
      var lineEnd := scanOffset + offsets[index];
      NextReached(expected, source, scanOffset, data, offsets, index, from, emitted);
      out', started', end, emitted' := ReadLine(source, from, lineEnd, path, out, started, emitted, expected, whole);
      lineStart := lineEnd + 1;
    }

    /** From one newline to the next, or to the end of the blocks. */
    lemma NextReached(expected: Expectation, source: string, scanOffset: nat, data: string, offsets: seq<nat>,
                      index: nat, lineStart: nat, emitted: seq<string>)
      requires scanOffset + |data| <= |source| && PieceOf(source, scanOffset, data)
      requires offsets == L.Newlines(data, |data|) && index <= |offsets|
      requires Reached(expected, source, lineStart, Before(scanOffset, offsets, index), emitted)
      ensures var e := if index < |offsets| then scanOffset + offsets[index] else scanOffset + |data|;
        && Reached(expected, source, lineStart, e, emitted)
        && (index < |offsets| ==> lineStart <= e < |source| && source[e] == '\n')
    {
      NewlineFound(source, scanOffset, data, offsets, index);
    }
  }

  lemma BlocksLeft(fullLength: nat, scanOffset: nat)
    requires fullLength % 32 == 0 && scanOffset % 32 == 0 && scanOffset < fullLength
    ensures var blockCount := L.Min((fullLength - scanOffset) / 32, 64);
      && 0 < blockCount <= 64 && scanOffset + 32 * blockCount <= fullLength
      && (scanOffset + 32 * blockCount) % 32 == 0
  {
    var n := L.Min((fullLength - scanOffset) / 32, 64);
    assert scanOffset + 32 * n == (scanOffset / 32 + n) * 32;
  }

  // ---------------------------------------------------------------- between two newlines

  /** No newline between the start of the line and the position reached. */
  ghost predicate Pending(source: string, lineStart: nat, reached: nat) {
    forall k {:trigger source[k]} :: lineStart <= k < reached && k < |source| ==> source[k] != '\n'
  }

  lemma {:induction false} NextNewlineIs(source: string, from: nat, e: nat)
    requires from <= e <= |source| && Pending(source, from, e) && (e < |source| ==> source[e] == '\n')
    ensures L.NextNewline(source, from) == e
    decreases e - from
  {
    if from < e {
      NextNewlineIs(source, from + 1, e);
    }
  }

  lemma LinesBegin(source: string, from: nat, e: nat)
    requires from <= e <= |source| && from < |source| && Pending(source, from, e) && (e < |source| ==>
      source[e] == '\n')
    ensures var lines := L.LinesFrom(source, from);
      && lines != [] && lines[0] == source[from..e]
      && lines[1..] == L.LinesFrom(source, if e < |source| then e + 1 else e)
  {
    NextNewlineIs(source, from, e);
  }

  /** The position behind the newline before number `index`. */
  function Before(scanOffset: nat, offsets: seq<nat>, index: nat): nat
    requires index <= |offsets|
  {
    if index == 0 then scanOffset else scanOffset + offsets[index - 1] + 1
  }

  ghost predicate PieceOf(source: string, scanOffset: nat, data: string)
    requires scanOffset + |data| <= |source|
  {
    forall k {:trigger data[k]} :: 0 <= k < |data| ==> data[k] == source[scanOffset + k]
  }

  /** Between two neighbours of the list of newlines there is none. */
  lemma NoneBetween(data: string, offsets: seq<nat>, index: nat, k: nat)
    requires offsets == L.Newlines(data, |data|) && index <= |offsets| && k < |data|
    requires Before(0, offsets, index) <= k && (index < |offsets| ==> k < offsets[index])
    ensures data[k] != '\n'
  {
    L.NewlinesAreAll(data, |data|);
    forall j | 0 <= j < |offsets|
      ensures offsets[j] != k
    {
      assert j + 1 < index ==> offsets[j] < offsets[index - 1];
    }
  }

  lemma NewlineFound(source: string, scanOffset: nat, data: string, offsets: seq<nat>, index: nat)
    requires scanOffset + |data| <= |source| && PieceOf(source, scanOffset, data)
    requires offsets == L.Newlines(data, |data|) && index <= |offsets|
    ensures var e := if index < |offsets| then scanOffset + offsets[index] else scanOffset + |data|;
      && Before(scanOffset, offsets, index) <= e <= scanOffset + |data|
      && Pending(source, Before(scanOffset, offsets, index), e)
      && (index < |offsets| ==> e < scanOffset + |data| && source[e] == '\n')
  {
    var e := if index < |offsets| then scanOffset + offsets[index] else scanOffset + |data|;
    OffsetsInOrder(data, offsets, index);
    forall k | Before(scanOffset, offsets, index) <= k < e
      ensures source[k] != '\n'
    {
      NoneBetween(data, offsets, index, k - scanOffset);
    }
  }

  lemma OffsetsInOrder(data: string, offsets: seq<nat>, index: nat)
    requires offsets == L.Newlines(data, |data|) && index <= |offsets|
    ensures Before(0, offsets, index) <= if index < |offsets| then offsets[index] else |data|
    ensures index < |offsets| ==> offsets[index] < |data| && data[offsets[index]] == '\n'
  {
    L.NewlinesAreAll(data, |data|);
  }
}
