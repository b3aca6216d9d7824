/** Source files as trees: text, definitions and groups of conditionals, with a meaning on the macros alone. The
    preprocessor makes of the written file just what the tree means. */
module Sources {
  import opened Wrappers
  import opened Expression
  import opened ExpressionTrees
  import opened ExpressionMeaning
  import opened Preprocessor
  import opened Conditionals
  import opened Directives
  import L = LineScan

  datatype Test = IfDefined(name: string) | IfNotDefined(name: string) | IfTrue(e: Expr)

  /** `Copied` is a line of the compiler, an unknown directive; it is not the preprocessor's. */
  datatype Source =
    | Finish
    | TextLine(line: string, rest: Source)
    | Defining(name: string, value: string, rest: Source)
    | Undefining(name: string, rest: Source)
    | Including(path: string, rest: Source)
    | Copied(line: string, rest: Source)
    | Failing(rest: Source)
    | Guarded(test: Test, body: Source, arms: Arms, rest: Source)

  /** What stands between the body of a group and its `#endif`. */
  datatype Arms = NoArms | ElseArm(body: Source) | ElifArm(e: Expr, body: Source, arms: Arms)

  // ---------------------------------------------------------------- meaning

  /** The macros and the lines emitted so far, and how it ended. */
  datatype Result = Result(macros: Macros, out: seq<string>, end: End)

  /** How macros are expanded in bodies, and whether definitions are copied to the output. */
  datatype Mode = Mode(expand: (string, Macros) -> string, preserve: bool)

  ghost function Truth(t: Test, macros: Macros): Option<bool>
    requires IsTest(t)
  {
    match t
    case IfDefined(name) => Some(name in macros)
    case IfNotDefined(name) => Some(name !in macros)
    case IfTrue(e) => IsNonZero(e, macros)
  }

  /** Nothing for a zero divisor. */
  ghost function IsNonZero(e: Expr, macros: Macros): Option<bool>
    requires WellFormed(e)
  {
    match ValueOf(e, macros)
    case Panic => None
    case Value(v) => Some(v != 0)
  }

  function Then(a: Result, b: Result): Result {
    if a.end.Fine? then b.(out := a.out + b.out) else a
  }

  predicate IsTest(t: Test) {
    match t
    case IfDefined(name) => IsWord(name)
    case IfNotDefined(name) => IsWord(name)
    case IfTrue(e) => WellFormed(e)
  }

  predicate IsSource(s: Source) {
    match s
    case Finish => true
    case TextLine(line, rest) => IsTight(line) && line[0] != '#' && IsSource(rest)
    case Defining(name, body, rest) => IsWord(name) && (body == "" || IsTight(body)) && IsSource(rest)
    case Undefining(name, rest) => IsWord(name) && IsSource(rest)
    case Including(path, rest) => IsWord(path) && IsSource(rest)
    case Copied(line, rest) => IsUnknown(line) && IsSource(rest)
    case Failing(rest) => IsSource(rest)
    case Guarded(test, body, arms, rest) => IsTest(test) && IsSource(body) && AreArms(arms) && IsSource(rest)
  }

  predicate AreArms(a: Arms) {
    match a
    case NoArms => true
    case ElseArm(body) => IsSource(body)
    case ElifArm(e, body, arms) => WellFormed(e) && IsSource(body) && AreArms(arms)
  }

  /** Text is emitted, definitions change the macros; of a group the first part whose test holds is run, the others are
      skipped. */
  ghost function Run(m: Mode, macros: Macros, s: Source): Result
    requires IsSource(s)
    decreases s, 1
  {
    match s
    case Finish => Result(macros, [], Fine)
    case TextLine(line, rest) => Then(Result(macros, [line], Fine), Run(m, macros, rest))
    case Defining(name, body, rest) =>
      var now := macros[name := m.expand(body, macros)];
      var copy := if body == "" then "#define " + name else "#define " + name + " " + body;
      Then(Result(now, if m.preserve then [copy] else [], Fine), Run(m, now, rest))
    case Undefining(name, rest) =>
      var now := macros - {name};
      Then(Result(now, if m.preserve then ["#undef " + name] else [], Fine), Run(m, now, rest))
    case Including(path, rest) => Then(Result(macros, ["#include <" + path + ">"], Fine), Run(m, macros, rest))
    case Copied(line, rest) => Then(Result(macros, [line], Fine), Run(m, macros, rest))
    case Failing(_) => Result(macros, [], Failed)
    case Guarded(_, _, _, rest) =>
      var now := RunGroup(m, macros, s);
      Then(now, Run(m, now.macros, rest))
  }

  ghost function RunGroup(m: Mode, macros: Macros, s: Source): Result
    requires s.Guarded? && IsSource(s)
    decreases s, 0
  {
    match Truth(s.test, macros)
    case None => Result(macros, [], Panicked)
    case Some(true) =>
      var now := Run(m, macros, s.body);
      Then(now, SkipArms(now.macros, s.arms))
    case Some(false) => Then(Skip(macros, s.body), RunArms(m, macros, s.arms))
  }

  ghost function RunArms(m: Mode, macros: Macros, a: Arms): Result
    requires AreArms(a)
    decreases a
  {
    match a
    case NoArms => Result(macros, [], Fine)
    case ElseArm(body) => Run(m, macros, body)
    case ElifArm(e, body, arms) =>
      match IsNonZero(e, macros)
      case None => Result(macros, [], Panicked)
      case Some(true) =>
        var now := Run(m, macros, body);
        Then(now, SkipArms(now.macros, arms))
      case Some(false) => Then(Skip(macros, body), RunArms(m, macros, arms))
  }

  /** What is skipped emits and defines nothing, but lines of the compiler are copied, `#error` fails, and the first
      test of every group in it is evaluated. */
  ghost function Skip(macros: Macros, s: Source): Result
    requires IsSource(s)
    decreases s
  {
    match s
    case Finish => Result(macros, [], Fine)
    case TextLine(_, rest) => Skip(macros, rest)
    case Defining(_, _, rest) => Skip(macros, rest)
    case Undefining(_, rest) => Skip(macros, rest)
    case Including(_, rest) => Skip(macros, rest)
    case Copied(line, rest) => Then(Result(macros, [line], Fine), Skip(macros, rest))
    case Failing(_) => Result(macros, [], Failed)
    case Guarded(test, body, arms, rest) =>
      match Truth(test, macros)
      case None => Result(macros, [], Panicked)
      case Some(_) => Then(Then(Skip(macros, body), SkipArms(macros, arms)), Skip(macros, rest))
  }

  ghost function SkipArms(macros: Macros, a: Arms): Result
    requires AreArms(a)
    decreases a
  {
    match a
    case NoArms => Result(macros, [], Fine)
    case ElseArm(body) => Skip(macros, body)
    case ElifArm(_, body, arms) => Then(Skip(macros, body), SkipArms(macros, arms))
  }

  // ---------------------------------------------------------------- writing

  function Values(tokens: seq<Token>): (v: seq<string>)
    ensures |v| == |tokens|
  {
    seq(|tokens|, k requires 0 <= k < |tokens| => tokens[k].value)
  }

  /** The tokens of a condition, a blank between two. */
  function Condition(e: Expr): string
    requires WellFormed(e)
  {
    JoinBlank(Values(Print(e, 5)))
  }

  function TestDirective(t: Test): Directive
    requires IsTest(t)
  {
    match t
    case IfDefined(name) => IfDef(name)
    case IfNotDefined(name) => IfNotDef(name)
    case IfTrue(e) => If(Condition(e))
  }

  function DefineLine(name: string, body: string): string {
    Write(Define(name, body, ""))
  }

  /** A file as nested lines. */
  function Blocks(s: Source): Block
    requires IsSource(s)
  {
    match s
    case Finish => Done
    case TextLine(line, rest) => Line(line, Blocks(rest))
    case Defining(name, body, rest) => Line(DefineLine(name, body), Blocks(rest))
    case Undefining(name, rest) => Line(Behind("#undef", name), Blocks(rest))
    case Including(path, rest) => Line(Behind("#include", "<" + path + ">"), Blocks(rest))
    case Copied(line, rest) => Line(line, Blocks(rest))
    case Failing(rest) => Line("#error", Blocks(rest))
    case Guarded(test, body, arms, rest) =>
      Group(Write(TestDirective(test)), Blocks(body), ArmBlocks(arms), "#endif", Blocks(rest))
  }

  function ArmBlocks(a: Arms): Branches
    requires AreArms(a)
  {
    match a
    case NoArms => Branches.NoMore
    case ElseArm(body) => Branch("#else", Blocks(body), Branches.NoMore)
    case ElifArm(e, body, arms) => Branch(Write(Elif(Condition(e))), Blocks(body), ArmBlocks(arms))
  }

  /** The lines of a file. */
  function Lines(s: Source): seq<string>
    requires IsSource(s)
  {
    Flatten(Blocks(s))
  }

  // ---------------------------------------------------------------- conditions are read back

  lemma TokenIsWord(t: Token)
    requires GoodToken(t)
    ensures IsWord(t.value)
  {
  }

  lemma ConditionIsPhrase(e: Expr)
    requires WellFormed(e)
    ensures AreWords(Values(Print(e, 5))) && IsPhrase(Condition(e))
  {
    var tokens := Print(e, 5);
    PrintIsGood(e, 5);
    var words := Values(tokens);
    forall k {:trigger words[k]} | 0 <= k < |words|
      ensures IsWord(words[k])
    {
      GoodAt(tokens, k);
      TokenIsWord(tokens[k]);
    }
  }

  /** A blank behind every token but the last. */
  function Gaps(n: nat): (g: seq<string>)
    ensures |g| == n && forall k {:trigger g[k]} :: 0 <= k < n ==> g[k] == if k < n - 1 then " " else ""
  {
    seq(n, k => if k < n - 1 then " " else "")
  }

  lemma {:induction false} JoinedIsLaid(tokens: seq<Token>, k: nat)
    requires k < |tokens|
    ensures JoinBlank(Values(tokens)[k..]) == Laid(tokens, Gaps(|tokens|), k)
    decreases |tokens| - k
  {
    var words, gaps := Values(tokens), Gaps(|tokens|);
    assert words[k..][0] == tokens[k].value;
    if k == |tokens| - 1 {
      assert gaps[k] == "" && Laid(tokens, gaps, k + 1) == "";
      assert tokens[k].value + ("" + "") == tokens[k].value;
    } else {
      JoinedIsLaid(tokens, k + 1);
      assert words[k..][1..] == words[k + 1..] && gaps[k] == " ";
      var rest := Laid(tokens, gaps, k + 1);
      assert tokens[k].value + " " + rest == tokens[k].value + (" " + rest);
    }
  }

  lemma ConditionMeans(e: Expr, macros: Macros)
    requires WellFormed(e)
    ensures Truthy(Condition(e), macros) == IsNonZero(e, macros)
  {
    var tokens := Print(e, 5);
    var gaps := Gaps(|tokens|);
    JoinedIsLaid(tokens, 0);
    assert Values(tokens)[0..] == Values(tokens);
    assert "" + Laid(tokens, gaps, 0) == Laid(tokens, gaps, 0);
    TextMeansTree(e, macros, "", gaps);
  }

  lemma TestIsRead(t: Test, macros: Macros)
    requires IsTest(t)
    ensures Classify(Write(TestDirective(t))) == TestDirective(t) && IsOpening(TestDirective(t))
    ensures Opens(macros, TestDirective(t)) == Truth(t, macros)
  {
    if t.IfTrue? {
      ConditionIsPhrase(t.e);
      ConditionMeans(t.e, macros);
    }
    ReadBack(TestDirective(t));
  }

  lemma ReadBack(d: Directive)
    requires IsWritten(d)
    ensures Classify(Write(d)) == d
  {
    WrittenIsRead(d, "", "");
    assert "" + Write(d) + "" == Write(d);
    assert d.Text? ==> "" + d.line + "" == d.line;
  }

  lemma ElifIsRead(e: Expr, macros: Macros)
    requires WellFormed(e)
    ensures Classify(Write(Elif(Condition(e)))) == Elif(Condition(e))
    ensures Takes(macros, Elif(Condition(e))) == IsNonZero(e, macros)
  {
    ConditionIsPhrase(e);
    ConditionMeans(e, macros);
    ReadBack(Elif(Condition(e)));
  }

  // ---------------------------------------------------------------- the tree is properly nested

  /** What the first line of a tree is. */
  function LineDirective(s: Source): Directive
    requires IsSource(s) && !s.Finish? && !s.Guarded?
  {
    match s
    case TextLine(line, _) => Text(line)
    case Defining(name, body, _) => Define(name, body, DefineLine(name, body))
    case Undefining(name, _) => Undef(name, Behind("#undef", name))
    case Including(path, _) => System(Behind("#include", "<" + path + ">"))
    case Copied(line, _) => Other(line)
    case Failing(_) => ErrorLine
  }

  lemma LineIsRead(s: Source)
    requires IsSource(s) && !s.Finish? && !s.Guarded?
    ensures Blocks(s) == Line(Write(LineDirective(s)), Blocks(s.rest))
    ensures Classify(Write(LineDirective(s))) == LineDirective(s)
  {
    if s.Including? {
      assert IsSystem(Behind("#include", "<" + s.path + ">"), s.path);
    }
    ReadBack(LineDirective(s));
  }

  lemma GroupIsNested(test: Test, first: Block, others: Branches, rest: Block)
    requires IsTest(test) && Nested(first) && NestedBranches(others) && Nested(rest)
    ensures Nested(Group(Write(TestDirective(test)), first, others, "#endif", rest))
  {
    TestIsRead(test, map[]);
    ReadBack(EndIf);
  }

  lemma {:induction false} IsNested(s: Source)
    requires IsSource(s)
    ensures Nested(Blocks(s))
    decreases s
  {
    if s.Guarded? {
      IsNested(s.body);
      ArmsAreNested(s.arms);
      IsNested(s.rest);
      GroupIsNested(s.test, Blocks(s.body), ArmBlocks(s.arms), Blocks(s.rest));
    } else if !s.Finish? {
      IsNested(s.rest);
      LineIsNested(s);
    }
  }

  lemma LineIsNested(s: Source)
    requires IsSource(s) && !s.Finish? && !s.Guarded? && Nested(Blocks(s.rest))
    ensures Nested(Blocks(s))
  {
    LineIsRead(s);
  }

  lemma {:induction false} ArmsAreNested(a: Arms)
    requires AreArms(a)
    ensures NestedBranches(ArmBlocks(a))
    decreases a
  {
    match a
    case NoArms =>
    case ElseArm(body) =>
      IsNested(body);
      ReadBack(Else);
    case ElifArm(e, body, arms) =>
      IsNested(body);
      ArmsAreNested(arms);
      ElifIsRead(e, map[]);
  }

  // ---------------------------------------------------------------- the preprocessor does what the tree means

  ghost function ModeOf(env: Env): Mode {
    Mode(env.expand, env.preserveDefines)
  }

  /** What a tree comes to, run or skipped. */
  ghost function Comes(env: Env, macros: Macros, active: bool, s: Source): Result
    requires IsSource(s)
  {
    if active then Run(ModeOf(env), macros, s) else Skip(macros, s)
  }

  ghost function ArmsCome(env: Env, macros: Macros, pending: bool, a: Arms): Result
    requires AreArms(a)
  {
    if pending then RunArms(ModeOf(env), macros, a) else SkipArms(macros, a)
  }

  ghost function As(core: Core, r: Result): Plain {
    Plain(core.(macros := r.macros), r.out, r.end)
  }

  lemma JoinIsThen(core: Core, a: Result, b: Result)
    ensures Join(As(core, a), As(core, b)) == As(core, Then(a, b))
  {
  }

  lemma SkipKeepsMacros(macros: Macros, s: Source)
    requires IsSource(s)
    ensures Skip(macros, s).macros == macros
    decreases s
  {
    match s
    case Guarded(_, body, arms, rest) =>
      SkipKeepsMacros(macros, body);
      SkipArmsKeepsMacros(macros, arms);
      SkipKeepsMacros(macros, rest);
    case Finish =>
    case _ => SkipKeepsMacros(macros, s.rest);
  }

  lemma SkipArmsKeepsMacros(macros: Macros, a: Arms)
    requires AreArms(a)
    ensures SkipArms(macros, a).macros == macros
    decreases a
  {
    match a
    case NoArms =>
    case ElseArm(body) => SkipKeepsMacros(macros, body);
    case ElifArm(_, body, arms) =>
      SkipKeepsMacros(macros, body);
      SkipArmsKeepsMacros(macros, arms);
  }

  /** What the first line comes to. */
  ghost function FirstComes(env: Env, macros: Macros, active: bool, s: Source): Result
    requires IsSource(s) && !s.Finish? && !s.Guarded?
  {
    var m := ModeOf(env);
    match s
    case TextLine(line, _) => Result(macros, if active then [line] else [], Fine)
    case Defining(name, body, _) =>
      if !active then Result(macros, [], Fine)
      else Result(macros[name := m.expand(body, macros)], if m.preserve then [DefineLine(name, body)] else [], Fine)
    case Undefining(name, _) =>
      if !active then Result(macros, [], Fine)
      else Result(macros - {name}, if m.preserve then [Behind("#undef", name)] else [], Fine)
    case Including(path, _) => Result(macros, if active then [Behind("#include", "<" + path + ">")] else [], Fine)
    case Copied(line, _) => Result(macros, [line], Fine)
    case Failing(_) => Result(macros, [], Failed)
  }

  lemma LinesSpelled(name: string, body: string, path: string)
    ensures DefineLine(name, body) == if body == "" then "#define " + name else "#define " + name + " " + body
    ensures Behind("#undef", name) == "#undef " + name
    ensures Behind("#include", "<" + path + ">") == "#include <" + path + ">"
  {
    assert "#define" + " " == "#define " && "#undef" + " " == "#undef " && "#include" + " " + "<" == "#include <";
    assert "#define" + (" " + (name + (" " + body))) == "#define" + " " + name + " " + body;
    assert "#define" + (" " + name) == "#define" + " " + name;
    assert "#undef" + (" " + name) == "#undef" + " " + name;
    assert "#include" + (" " + ("<" + path + ">")) == "#include" + " " + "<" + path + ">";
  }

  lemma FirstThenRest(env: Env, macros: Macros, active: bool, s: Source)
    requires IsSource(s) && !s.Finish? && !s.Guarded?
    ensures var now := FirstComes(env, macros, active, s);
      Comes(env, macros, active, s) == Then(now, if s.Failing? then now else Comes(env, now.macros, active, s.rest))
  {
    LinesSpelled(if s.Defining? || s.Undefining? then s.name else "", if s.Defining? then s.value else "",
                 if s.Including? then s.path else "");
    if !s.Failing? {
      var r := Skip(macros, s.rest);
      assert [] + r.out == r.out;
    }
  }

  lemma FirstIsPlain(env: Env, core: Core, active: bool, s: Source, path: string)
    requires IsSource(s) && !s.Finish? && !s.Guarded?
    ensures !IsConditional(LineDirective(s))
    ensures PlainStep(env, core, active, LineDirective(s), path) == As(core, FirstComes(env, core.macros, active, s))
  {
  }

  lemma {:induction false} ReadsAsTree(env: Env, core: Core, active: bool, s: Source, path: string)
    requires IsSource(s)
    ensures Nested(Blocks(s))
    ensures Read(env, core, active, Blocks(s), path) == As(core, Comes(env, core.macros, active, s))
    decreases s, 1
  {
    IsNested(s);
    if s.Guarded? {
      var now := GroupReads(env, core, active, s, path);
      var core' := core.(macros := now.macros);
      ReadsAsTree(env, core', active, s.rest, path);
      JoinIsThen(core, now, Comes(env, now.macros, active, s.rest));
      GroupThenRest(env, core.macros, active, s);
    } else if !s.Finish? {
      LineIsRead(s);
      var now := FirstComes(env, core.macros, active, s);
      FirstIsPlain(env, core, active, s, path);
      ReadsAsTree(env, core.(macros := now.macros), active, s.rest, path);
      JoinIsThen(core, now, Comes(env, now.macros, active, s.rest));
      FirstThenRest(env, core.macros, active, s);
    }
  }

  /** What a group comes to. */
  ghost function GroupComes(env: Env, macros: Macros, active: bool, s: Source): Result
    requires s.Guarded? && IsSource(s)
  {
    match Truth(s.test, macros)
    case None => Result(macros, [], Panicked)
    case Some(v) =>
      var now := Comes(env, macros, active && v, s.body);
      Then(now, ArmsCome(env, now.macros, active && !v, s.arms))
  }

  lemma GroupThenRest(env: Env, macros: Macros, active: bool, s: Source)
    requires s.Guarded? && IsSource(s)
    ensures var now := GroupComes(env, macros, active, s);
      Comes(env, macros, active, s) == Then(now, Comes(env, now.macros, active, s.rest))
  {
    SkipKeepsMacros(macros, s.body);
    SkipArmsKeepsMacros(macros, s.arms);
    if active {
      RunOfGroup(env, macros, s);
    } else {
      SkippedGroup(env, macros, s);
    }
  }

  lemma RunOfGroup(env: Env, macros: Macros, s: Source)
    requires s.Guarded? && IsSource(s) && Skip(macros, s.body).macros == macros
    ensures GroupComes(env, macros, true, s) == RunGroup(ModeOf(env), macros, s)
    ensures var now := RunGroup(ModeOf(env), macros, s);
      Run(ModeOf(env), macros, s) == Then(now, Run(ModeOf(env), now.macros, s.rest))
  {
    match Truth(s.test, macros)
    case None =>
    case Some(v) => assert Comes(env, macros, v, s.body) == if v then Run(ModeOf(env), macros, s.body)
                                                            else Skip(macros, s.body);
  }

  lemma SkippedGroup(env: Env, macros: Macros, s: Source)
    requires s.Guarded? && IsSource(s) && Skip(macros, s.body).macros == SkipArms(macros, s.arms).macros == macros
    ensures var now := GroupComes(env, macros, false, s);
      now.macros == macros && Skip(macros, s) == Then(now, Skip(macros, s.rest))
  {
    if Truth(s.test, macros).Some? {
      assert GroupComes(env, macros, false, s) == Then(Skip(macros, s.body), SkipArms(macros, s.arms));
    }
  }

  lemma {:induction false} GroupReads(env: Env, core: Core, active: bool, s: Source, path: string)
    returns (now: Result)
    requires s.Guarded? && IsSource(s) && Nested(Blocks(s))
    ensures now == GroupComes(env, core.macros, active, s)
    ensures ReadGroup(env, core, active, Blocks(s), path) == As(core, now)
    decreases s, 0
  {
    now := GroupComes(env, core.macros, active, s);
    TestIsRead(s.test, core.macros);
    match Truth(s.test, core.macros)
    case None =>
    case Some(v) =>
      var first := Comes(env, core.macros, active && v, s.body);
      ReadsAsTree(env, core, active && v, s.body, path);
      ArmsRead(env, core.(macros := first.macros), active && !v, s.arms, path);
      JoinIsThen(core, first, ArmsCome(env, first.macros, active && !v, s.arms));
  }

  lemma {:induction false} ArmsRead(env: Env, core: Core, pending: bool, a: Arms, path: string)
    requires AreArms(a)
    ensures NestedBranches(ArmBlocks(a))
    ensures ReadBranches(env, core, pending, ArmBlocks(a), path) == As(core, ArmsCome(env, core.macros, pending, a))
    decreases a
  {
    ArmsAreNested(a);
    match a
    case NoArms =>
    case ElseArm(body) =>
      ReadBack(Else);
      ReadsAsTree(env, core, pending, body, path);
      var now := Comes(env, core.macros, pending, body);
      JoinIsThen(core, now, Result(now.macros, [], Fine));
      assert now.out + [] == now.out;
    case ElifArm(e, body, arms) =>
      ElifIsRead(e, core.macros);
      var truth := if pending then IsNonZero(e, core.macros) else Some(false);
      if truth.Some? {
        var now := Comes(env, core.macros, truth.value, body);
        ReadsAsTree(env, core, truth.value, body, path);
        ArmsRead(env, core.(macros := now.macros), pending && !truth.value, arms, path);
        JoinIsThen(core, now, ArmsCome(env, now.macros, pending && !truth.value, arms));
        SkipKeepsMacros(core.macros, body);
      }
  }

  /** For every tree: the preprocessor, reading its lines, emits the lines the tree means, leaves the macros it leaves,
      ends as it ends, and leaves no conditional open. */
  lemma LinesMeanTree(env: Env, core: Core, s: Source, path: string)
    requires IsSource(s)
    ensures var r := Run(ModeOf(env), core.macros, s);
      LinesStep(env, core, [], Lines(s), path) == After(core.(macros := r.macros), [], r.out, r.end)
  {
    ReadsAsTree(env, core, true, s, path);
    FlatIsNested(env, core, [], Blocks(s), [], path);
    assert Flatten(Blocks(s)) + [] == Lines(s);
    var r := Run(ModeOf(env), core.macros, s);
    assert r.out + [] == r.out;
  }

  /** So does a file of these lines. */
  lemma FileMeansTree(env: Env, core: Core, s: Source, path: string, resolved: string)
    requires IsSource(s) && path != "" && env.resolve(path) == Some(resolved)
    requires resolved in env.files && L.LinesFrom(env.files[resolved], 0) == Lines(s)
    requires resolved !in core.stack && env.cacheKey(resolved, core.macros) !in core.cache
    ensures var r, p := Run(ModeOf(env), core.macros, s), FileStep(env, core, path, core.macros);
      && p.end == r.end && p.core.macros == r.macros && p.core.stack == core.stack
      && p.text == if r.end.Fine? then JoinLines(r.out) else ""
  {
    NewFileStep(env, core, path, core.macros, resolved, env.cacheKey(resolved, core.macros));
    LinesMeanTree(env, core.(stack := core.stack + [resolved]), s, resolved);
  }

  lemma IncludeIsRead(target: string)
    requires IsWord(target) && target[0] !in "\"<>" && target[|target| - 1] !in "\"<>"
    ensures Classify("#include \"" + target + "\"") == Include(target)
  {
    ReadBack(Include(target));
    assert "#include" + " " + "\"" == "#include \"";
    assert "#include" + (" " + ("\"" + target + "\"")) == "#include" + " " + "\"" + target + "\"";
  }

  /** An included file leaves the macros its tree leaves, and no text; one that fails or divides by zero stops the file
      that includes it. A skipped `#include` does nothing. */
  lemma IncludeMeansTree(env: Env, core: Core, conds: seq<Cond>, target: string, from: string, s: Source, path: string,
                         resolved: string)
    requires IsWord(target) && target[0] !in "\"<>" && target[|target| - 1] !in "\"<>"
    requires env.resolveInclude(target, from) == Some(path) && path != "" && env.resolve(path) == Some(resolved)
    requires IsSource(s) && resolved in env.files && L.LinesFrom(env.files[resolved], 0) == Lines(s)
    requires resolved !in core.stack && env.cacheKey(resolved, core.macros) !in core.cache
    ensures var line := "#include \"" + target + "\"";
      var r, p := Run(ModeOf(env), core.macros, s), LineStep(env, core, conds, Classify(line), from);
      if ShouldEmit(conds) then p.end == r.end && p.core.macros == r.macros && p.out == []
      else p == After(core, conds, [], Fine)
  {
    IncludeIsRead(target);
    FileMeansTree(env, core, s, path, resolved);
    IncludeStep(env, core, conds, target, from, path);
  }

  lemma IncludeStep(env: Env, core: Core, conds: seq<Cond>, target: string, from: string, path: string)
    requires env.resolveInclude(target, from) == Some(path)
    ensures var p, f := LineStep(env, core, conds, Include(target), from), FileStep(env, core, path, core.macros);
      if ShouldEmit(conds) then p == After(f.core, if f.end.Fine? then conds else [], [], f.end)
      else p == After(core, conds, [], Fine)
  {
  }

  /** Nothing is read: there is no such file, or it is on the include stack; there it is refused even if cached. */
  ghost predicate CannotRead(env: Env, core: Core, target: string, from: string) {
    match env.resolveInclude(target, from)
    case None => true
    case Some(path) =>
      path != "" &&
      match env.resolve(path)
      case None => true
      case Some(file) => file in core.stack || (!IsCached(env, core, file) && file !in env.files)
  }

  ghost predicate IsCached(env: Env, core: Core, file: string) {
    env.cacheKey(file, core.macros) in core.cache
  }

  /** Nothing needs to be read: there is no path, or the file is cached. */
  ghost predicate NeedNotRead(env: Env, core: Core, target: string, from: string) {
    match env.resolveInclude(target, from)
    case None => false
    case Some(path) =>
      path == "" ||
      match env.resolve(path)
      case None => false
      case Some(file) => file !in core.stack && IsCached(env, core, file)
  }

  /** What an `#include` does that reads no file: it fails, or does nothing at all. In both cases nothing changes. */
  lemma IncludeWithoutReading(env: Env, core: Core, conds: seq<Cond>, target: string, from: string)
    requires IsWord(target) && target[0] !in "\"<>" && target[|target| - 1] !in "\"<>" && ShouldEmit(conds)
    ensures var p := LineStep(env, core, conds, Classify("#include \"" + target + "\""), from);
      && (CannotRead(env, core, target, from) ==> p == After(core, [], [], Failed))
      && (NeedNotRead(env, core, target, from) ==> p == After(core, conds, [], Fine))
  {
    IncludeIsRead(target);
    match env.resolveInclude(target, from)
    case None =>
    case Some(path) =>
      IncludeStep(env, core, conds, target, from, path);
      FileWithoutReading(env, core, path);
  }

  lemma FileWithoutReading(env: Env, core: Core, path: string)
    ensures var p := FileStep(env, core, path, core.macros);
      if path == "" then p == Processed(core, "", Fine)
      else
        match env.resolve(path)
        case None => p == Processed(core, "", Failed)
        case Some(file) =>
          && (file in core.stack || (!IsCached(env, core, file) && file !in env.files) ==>
              p == Processed(core, "", Failed))
          && (file !in core.stack && IsCached(env, core, file) ==> p.core == core && p.end == Fine)
  {
  }

  /** A file that was read without failure is not read again under the same key: its text comes from the cache, and its
      definitions are not made. */
  lemma SecondTimeIsCached(env: Env, core: Core, path: string, keyMacros: Macros, later: Core)
    requires path != "" && env.resolve(path).Some? && FileStep(env, core, path, keyMacros).end.Fine?
    requires var p := FileStep(env, core, path, keyMacros);
      && later.stack == core.stack && (forall k :: k in p.core.cache ==> k in later.cache)
      && (forall k :: k in p.core.cache ==> later.cache[k] == p.core.cache[k])
    ensures FileStep(env, later, path, keyMacros) == Processed(later, FileStep(env, core, path, keyMacros).text, Fine)
  {
  }
}
