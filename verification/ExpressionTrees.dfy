/** Expression trees and how they are written: of every tree, written with the parentheses it needs and laid out in any
    way, the evaluator computes just that tree. */
module ExpressionTrees {
  import opened Expression

  datatype Expr =
    | Num(digits: string)
    | Name(name: string)
    | Defined(name: string)
    | Unary(op: string, e: Expr)
    | Binary(op: string, left: Expr, right: Expr)

  predicate IsLetter(c: char) {
    'a' <= c <= 'z' || 'A' <= c <= 'Z' || c == '_'
  }

  predicate IsName(s: string) {
    && s != "" && IsLetter(s[0])
    && forall k {:trigger s[k]} :: 0 <= k < |s| ==> IsLetter(s[k]) || '0' <= s[k] <= '9'
  }

  predicate IsNumber(s: string) {
    s != "" && forall k {:trigger s[k]} :: 0 <= k < |s| ==> '0' <= s[k] <= '9'
  }

  /** Products bind tighter than sums, sums tighter than comparisons; 0 for all other text. */
  function LevelOf(op: string): nat {
    if op == "*" || op == "/" || op == "%" then 1
    else if op == "+" || op == "-" then 2
    else if op == "==" || op == "!=" || op == "<=" || op == ">=" || op == "<" || op == ">" then 3
    else 0
  }

  predicate WellFormed(e: Expr) {
    match e
    case Num(digits) => IsNumber(digits)
    case Name(name) => IsName(name) && name != "defined"
    case Defined(name) => IsName(name)
    case Unary(op, a) => (op == "!" || op == "+" || op == "-") && WellFormed(a)
    case Binary(op, a, b) => LevelOf(op) > 0 && WellFormed(a) && WellFormed(b)
  }

  /** What the arithmetic of the evaluator makes of a tree. */
  function Computed(e: Expr, macros: Macros): Outcome
    requires WellFormed(e)
  {
    match e
    case Num(digits) => Value(if Decimal(digits) < LIMIT then Decimal(digits) else LIMIT - 1)
    case Name(name) => Value(NameValue(macros, name))
    case Defined(name) => Value(Truth(name in macros))
    case Unary(op, a) => Computed1(op, Computed(a, macros))
    case Binary(op, a, b) => Computed2(op, Computed(a, macros), Computed(b, macros))
  }

  function Computed1(op: string, a: Outcome): Outcome {
    match a
    case Panic => Panic
    case Value(v) => Value(ApplyUnary(op, v))
  }

  function Computed2(op: string, a: Outcome, b: Outcome): Outcome {
    match (a, b)
    case (Value(x), Value(y)) => Apply(op, x, y)
    case _ => Panic
  }

  function Level(e: Expr): nat {
    if e.Binary? then LevelOf(e.op) else 0
  }

  /** The tokens of a tree, without parentheses around the whole. The right operand must bind tighter. */
  function Bare(e: Expr): (t: seq<Token>)
    requires WellFormed(e)
    ensures t != []
    decreases e, 0
  {
    match e
    case Num(digits) => [Token(Number, digits)]
    case Name(name) => [Token(Ident, name)]
    case Defined(name) => [Token(Ident, "defined"), Token(Op, "("), Token(Ident, name), Token(Op, ")")]
    case Unary(op, a) => [Token(Op, op)] + Print(a, 0)
    case Binary(op, a, b) => Print(a, LevelOf(op)) + ([Token(Op, op)] + Print(b, LevelOf(op) - 1))
  }

  function Print(e: Expr, level: nat): (t: seq<Token>)
    requires WellFormed(e)
    ensures t != []
    decreases e, 1
  {
    if Level(e) <= level then Bare(e) else [Token(Op, "(")] + (Bare(e) + [Token(Op, ")")])
  }

  // ---------------------------------------------------------------- tokens are read back

  ghost predicate At(tokens: seq<Token>, pos: nat, piece: seq<Token>) {
    pos + |piece| <= |tokens| && tokens[pos..pos + |piece|] == piece
  }

  lemma AtParts(tokens: seq<Token>, pos: nat, a: seq<Token>, b: seq<Token>)
    requires At(tokens, pos, a + b)
    ensures At(tokens, pos, a) && At(tokens, pos + |a|, b)
  {
    assert (a + b)[..|a|] == a && (a + b)[|a|..] == b;
  }

  lemma AtOne(tokens: seq<Token>, pos: nat, t: Token)
    requires At(tokens, pos, [t])
    ensures pos < |tokens| && tokens[pos] == t
  {
    assert tokens[pos..pos + 1][0] == t;
  }

  lemma AtThree(tokens: seq<Token>, pos: nat, a: seq<Token>, t: Token, b: seq<Token>)
    requires At(tokens, pos, a + ([t] + b))
    ensures At(tokens, pos, a) && pos + |a| < |tokens| && tokens[pos + |a|] == t && At(tokens, pos + |a| + 1, b)
  {
    AtParts(tokens, pos, a, [t] + b);
    AtParts(tokens, pos + |a|, [t], b);
    AtOne(tokens, pos + |a|, t);
  }

  /** No operator of the levels 1 to `level` follows. */
  ghost predicate Stops(tokens: seq<Token>, pos: nat, level: int) {
    pos < |tokens| ==> forall l: nat {:trigger IsOp(l, tokens[pos].value)} :: 0 < l <= level ==>
      !IsOp(l, tokens[pos].value)
  }

  ghost function Rest(tokens: seq<Token>, macros: Macros, o: Outcome, pos: nat, level: nat): Parsed
    requires pos <= |tokens|
  {
    match o
    case Panic => DivideByZero
    case Value(v) => if level == 0 then Parsed(v, pos) else LoopAt(tokens, macros, pos, level, v)
  }

  ghost predicate ReadsAs(tokens: seq<Token>, macros: Macros, pos: nat, level: nat, o: Outcome, end: nat) {
    pos <= |tokens| && end <= |tokens| && LevelAt(tokens, macros, pos, level) == Rest(tokens, macros, o, end, level)
  }

  lemma {:induction false} Climb(tokens: seq<Token>, macros: Macros, pos: nat, o: Outcome, end: nat, low: nat,
                                 high: nat)
    requires pos <= |tokens| && end <= |tokens| && low <= high && Stops(tokens, end, high - 1)
    requires LevelAt(tokens, macros, pos, low) == Rest(tokens, macros, o, end, low)
    ensures LevelAt(tokens, macros, pos, high) == Rest(tokens, macros, o, end, high)
  {
    if low < high {
      Climb(tokens, macros, pos, o, end, low, high - 1);
      if end < |tokens| && high > 1 {
        assert !IsOp(high - 1, tokens[end].value);
      }
    }
  }

  lemma ReadLeaf(tokens: seq<Token>, macros: Macros, pos: nat, e: Expr)
    requires (e.Num? || e.Name?) && WellFormed(e) && At(tokens, pos, Bare(e))
    ensures LevelAt(tokens, macros, pos, 0) == Rest(tokens, macros, Computed(e, macros), pos + 1, 0)
  {
    AtOne(tokens, pos, Bare(e)[0]);
    assert if e.Num? then IsDigit(e.digits[0]) else StartsName(e.name[0]);
    assert UnaryAt(tokens, macros, pos) == PrimaryAt(tokens, macros, pos);
  }

  lemma {:induction false} ReadBare(tokens: seq<Token>, macros: Macros, pos: nat, e: Expr)
    requires WellFormed(e) && At(tokens, pos, Bare(e)) && Stops(tokens, pos + |Bare(e)|, Level(e) - 1)
    ensures ReadsAs(tokens, macros, pos, Level(e), Computed(e, macros), pos + |Bare(e)|)
    decreases e, 2
  {
    match e
    case Num(_) => ReadLeaf(tokens, macros, pos, e);
    case Name(_) => ReadLeaf(tokens, macros, pos, e);
    case Defined(name) => ReadDefined(tokens, macros, pos, name);
    case Unary(_, _) => ReadUnary(tokens, macros, pos, e);
    case Binary(op, a, b) =>
      OperandsAt(tokens, pos, e, Print(a, LevelOf(op)), Print(b, LevelOf(op) - 1));
      ReadBinary(tokens, macros, pos, e, Print(a, LevelOf(op)), Print(b, LevelOf(op) - 1));
  }

  lemma {:induction false} ReadUnary(tokens: seq<Token>, macros: Macros, pos: nat, e: Expr)
    requires e.Unary? && WellFormed(e) && At(tokens, pos, Bare(e))
    ensures LevelAt(tokens, macros, pos, 0) == Rest(tokens, macros, Computed(e, macros), pos + |Bare(e)|, 0)
    decreases e, 0
  {
    AtParts(tokens, pos, [Token(Op, e.op)], Print(e.e, 0));
    AtOne(tokens, pos, Token(Op, e.op));
    ReadPrint(tokens, macros, pos + 1, e.e, 0);
    PrefixAt(tokens, macros, pos, e.op, Computed(e.e, macros), pos + |Bare(e)|);
  }

  lemma PrefixAt(tokens: seq<Token>, macros: Macros, pos: nat, op: string, o: Outcome, end: nat)
    requires pos < |tokens| && tokens[pos].value == op && IsUnary(op) && end <= |tokens|
    requires UnaryAt(tokens, macros, pos + 1) == Rest(tokens, macros, o, end, 0)
    ensures UnaryAt(tokens, macros, pos) == Rest(tokens, macros, Computed1(op, o), end, 0)
  {
  }

  lemma ReadDefined(tokens: seq<Token>, macros: Macros, pos: nat, name: string)
    requires IsName(name) && At(tokens, pos, Bare(Defined(name)))
    ensures LevelAt(tokens, macros, pos, 0) == Parsed(Truth(name in macros), pos + 4)
  {
    var t := Bare(Defined(name));
    assert forall k :: 0 <= k < 4 ==> tokens[pos..pos + 4][k] == t[k];
    assert tokens[pos] == t[0] && tokens[pos + 1] == t[1] && tokens[pos + 2] == t[2] && tokens[pos + 3] == t[3];
    assert UnaryAt(tokens, macros, pos) == PrimaryAt(tokens, macros, pos);
    assert DefinedAt(tokens, macros, pos + 1) == Parsed(Truth(name in macros), pos + 4);
  }

  /** An operator between two operands that were read. */
  lemma OneOperator(tokens: seq<Token>, macros: Macros, pos: nat, mid: nat, end: nat, op: string, a: Outcome,
                    b: Outcome)
    requires pos <= mid < end <= |tokens| && LevelOf(op) > 0 && tokens[mid].value == op
    requires Stops(tokens, end, LevelOf(op) - 1)
    requires LevelAt(tokens, macros, pos, LevelOf(op)) == Rest(tokens, macros, a, mid, LevelOf(op))
    requires LevelAt(tokens, macros, mid + 1, LevelOf(op) - 1) == Rest(tokens, macros, b, end, LevelOf(op) - 1)
    ensures LevelAt(tokens, macros, pos, LevelOf(op)) == Rest(tokens, macros, Computed2(op, a, b), end, LevelOf(op))
  {
    var n := LevelOf(op);
    if end < |tokens| && n > 1 {
      assert !IsOp(n - 1, tokens[end].value);
    }
  }

  lemma StopsLess(tokens: seq<Token>, pos: nat, low: int, high: int)
    requires Stops(tokens, pos, high) && low <= high
    ensures Stops(tokens, pos, low)
  {
  }

  lemma OperandsAt(tokens: seq<Token>, pos: nat, e: Expr, left: seq<Token>, right: seq<Token>)
    requires e.Binary? && WellFormed(e) && At(tokens, pos, Bare(e))
    requires left == Print(e.left, LevelOf(e.op)) && right == Print(e.right, LevelOf(e.op) - 1)
    ensures |Bare(e)| == |left| + 1 + |right| && At(tokens, pos, left) && At(tokens, pos + |left| + 1, right)
    ensures pos + |left| < |tokens| && tokens[pos + |left|] == Token(Op, e.op)
  {
    assert Bare(e) == left + ([Token(Op, e.op)] + right);
    AtThree(tokens, pos, left, Token(Op, e.op), right);
  }

  lemma {:induction false} ReadLeft(tokens: seq<Token>, macros: Macros, pos: nat, op: string, e: Expr)
    requires WellFormed(e) && LevelOf(op) > 0 && At(tokens, pos, Print(e, LevelOf(op)))
    requires pos + |Print(e, LevelOf(op))| < |tokens| && tokens[pos + |Print(e, LevelOf(op))|].value == op
    ensures ReadsAs(tokens, macros, pos, LevelOf(op), Computed(e, macros), pos + |Print(e, LevelOf(op))|)
    decreases e, 5
  {
    LowerStops(tokens, pos + |Print(e, LevelOf(op))|, op);
    ReadPrint(tokens, macros, pos, e, LevelOf(op));
  }

  lemma {:induction false} ReadRight(tokens: seq<Token>, macros: Macros, pos: nat, n: nat, e: Expr)
    requires WellFormed(e) && n > 0 && At(tokens, pos, Print(e, n - 1))
    requires Stops(tokens, pos + |Print(e, n - 1)|, n - 1)
    ensures ReadsAs(tokens, macros, pos, n - 1, Computed(e, macros), pos + |Print(e, n - 1)|)
    decreases e, 5
  {
    StopsLess(tokens, pos + |Print(e, n - 1)|, n as int - 2, n as int - 1);
    ReadPrint(tokens, macros, pos, e, n - 1);
  }

  lemma OperandsJoin(tokens: seq<Token>, macros: Macros, pos: nat, mid: nat, end: nat, e: Expr)
    requires e.Binary? && WellFormed(e) && pos <= mid < end <= |tokens| && tokens[mid].value == e.op
    requires Stops(tokens, end, LevelOf(e.op) - 1)
    requires ReadsAs(tokens, macros, pos, LevelOf(e.op), Computed(e.left, macros), mid)
    requires ReadsAs(tokens, macros, mid + 1, LevelOf(e.op) - 1, Computed(e.right, macros), end)
    ensures ReadsAs(tokens, macros, pos, LevelOf(e.op), Computed(e, macros), end)
  {
    OneOperator(tokens, macros, pos, mid, end, e.op, Computed(e.left, macros), Computed(e.right, macros));
  }

  lemma {:induction false} ReadBinary(tokens: seq<Token>, macros: Macros, pos: nat, e: Expr, left: seq<Token>,
                                      right: seq<Token>)
    requires e.Binary? && WellFormed(e)
    requires left == Print(e.left, LevelOf(e.op)) && right == Print(e.right, LevelOf(e.op) - 1)
    requires At(tokens, pos, left) && At(tokens, pos + |left| + 1, right)
    requires pos + |left| < |tokens| && tokens[pos + |left|].value == e.op
    requires Stops(tokens, pos + |left| + 1 + |right|, LevelOf(e.op) - 1)
    ensures ReadsAs(tokens, macros, pos, LevelOf(e.op), Computed(e, macros), pos + |left| + 1 + |right|)
    decreases e, 1
  {
    ReadLeft(tokens, macros, pos, e.op, e.left);
    ReadRight(tokens, macros, pos + |left| + 1, LevelOf(e.op), e.right);
    OperandsJoin(tokens, macros, pos, pos + |left|, pos + |left| + 1 + |right|, e);
  }

  lemma LowerStops(tokens: seq<Token>, pos: nat, op: string)
    requires pos < |tokens| && tokens[pos].value == op && LevelOf(op) > 0
    ensures Stops(tokens, pos, LevelOf(op) - 1)
  {
  }

  lemma {:induction false} ReadPrint(tokens: seq<Token>, macros: Macros, pos: nat, e: Expr, level: nat)
    requires WellFormed(e) && At(tokens, pos, Print(e, level)) && Stops(tokens, pos + |Print(e, level)|, level - 1)
    ensures LevelAt(tokens, macros, pos, level) ==
            Rest(tokens, macros, Computed(e, macros), pos + |Print(e, level)|, level)
    decreases e, 4
  {
    var end := pos + |Print(e, level)|;
    if Level(e) <= level {
      ReadBare(tokens, macros, pos, e);
      Climb(tokens, macros, pos, Computed(e, macros), end, Level(e), level);
    } else {
      ReadWrapped(tokens, macros, pos, e);
      Climb(tokens, macros, pos, Computed(e, macros), end, 0, level);
    }
  }

  lemma AtWrapped(tokens: seq<Token>, pos: nat, a: seq<Token>)
    requires At(tokens, pos, [Token(Op, "(")] + (a + [Token(Op, ")")]))
    ensures pos + |a| + 1 < |tokens| && tokens[pos] == Token(Op, "(") && At(tokens, pos + 1, a)
    ensures tokens[pos + |a| + 1] == Token(Op, ")")
  {
    AtParts(tokens, pos, [Token(Op, "(")], a + [Token(Op, ")")]);
    AtOne(tokens, pos, Token(Op, "("));
    AtParts(tokens, pos + 1, a, [Token(Op, ")")]);
    AtOne(tokens, pos + 1 + |a|, Token(Op, ")"));
  }

  lemma {:induction false} ReadWrapped(tokens: seq<Token>, macros: Macros, pos: nat, e: Expr)
    requires WellFormed(e) && At(tokens, pos, [Token(Op, "(")] + (Bare(e) + [Token(Op, ")")]))
    ensures ReadsAs(tokens, macros, pos, 0, Computed(e, macros), pos + |Bare(e)| + 2)
    decreases e, 3
  {
    AtWrapped(tokens, pos, Bare(e));
    ClosingStops(tokens, pos + 1 + |Bare(e)|, Level(e) - 1);
    ReadBare(tokens, macros, pos + 1, e);
    Wrapped(tokens, macros, pos, Computed(e, macros), |Bare(e)|, Level(e));
  }

  lemma ClosingStops(tokens: seq<Token>, pos: nat, level: int)
    requires pos < |tokens| && tokens[pos] == Token(Op, ")")
    ensures Stops(tokens, pos, level)
  {
  }

  lemma Wrapped(tokens: seq<Token>, macros: Macros, pos: nat, o: Outcome, n: nat, level: nat)
    requires pos + 1 + n < |tokens| && level <= 5
    requires tokens[pos] == Token(Op, "(") && tokens[pos + 1 + n] == Token(Op, ")")
    requires ReadsAs(tokens, macros, pos + 1, level, o, pos + 1 + n)
    ensures ReadsAs(tokens, macros, pos, 0, o, pos + n + 2)
  {
    ClosingStops(tokens, pos + 1 + n, 4);
    Climb(tokens, macros, pos + 1, o, pos + 1 + n, level, 5);
    ReadParens(tokens, macros, pos, o, pos + n + 2);
  }

  lemma ReadParens(tokens: seq<Token>, macros: Macros, pos: nat, o: Outcome, end: nat)
    requires pos + 1 < end <= |tokens| && tokens[pos] == Token(Op, "(") && tokens[end - 1] == Token(Op, ")")
    requires LevelAt(tokens, macros, pos + 1, 5) == Rest(tokens, macros, o, end - 1, 5)
    ensures LevelAt(tokens, macros, pos, 0) == Rest(tokens, macros, o, end, 0)
  {
    assert UnaryAt(tokens, macros, pos) == PrimaryAt(tokens, macros, pos);
    assert !IsOp(5, tokens[end - 1].value);
  }

  // ---------------------------------------------------------------- text is read back

  predicate GoodToken(t: Token) {
    match t.kind
    case Number => AllDigits(t.value)
    case Ident => IsName(t.value)
    case Op =>
      || (|t.value| == 1 && (IsSingle(t.value[0]) || IsPaired(t.value[0])))
      || (|t.value| == 2 && IsPaired(t.value[0]) && t.value[1] == '=')
  }

  predicate IsBlank(s: string) {
    forall k {:trigger s[k]} :: 0 <= k < |s| ==> s[k] == ' ' || s[k] == '\t' || s[k] == '\n' || s[k] == '\r'
  }

  /** The text of the tokens from `k` on, with a gap behind each. */
  function Laid(tokens: seq<Token>, gaps: seq<string>, k: nat): string
    requires k <= |tokens| == |gaps|
    decreases |tokens| - k
  {
    if k == |tokens| then "" else tokens[k].value + (gaps[k] + Laid(tokens, gaps, k + 1))
  }

  /** A character that would make the token longer. */
  predicate Continues(t: Token, c: char) {
    match t.kind
    case Number => '0' <= c <= '9'
    case Ident => IsLetter(c) || '0' <= c <= '9'
    case Op => |t.value| == 1 && (t.value == "!" || t.value == "=" || t.value == "<" || t.value == ">") && c == '='
  }

  /** Gaps are blanks, and empty only where the next token does not make this one longer. */
  ghost predicate IsLayout(tokens: seq<Token>, gaps: seq<string>) {
    && |gaps| == |tokens| && (forall k {:trigger gaps[k]} :: 0 <= k < |gaps| ==> IsBlank(gaps[k]))
    && (forall k {:trigger gaps[k]} :: 0 <= k < |gaps| - 1 && gaps[k] == "" ==>
          tokens[k + 1].value != "" && !Continues(tokens[k], tokens[k + 1].value[0]))
  }

  ghost predicate AllGood(tokens: seq<Token>) {
    forall t {:trigger t in tokens} :: t in tokens ==> GoodToken(t)
  }

  lemma GoodParts(a: seq<Token>, t: Token, b: seq<Token>)
    requires AllGood(a) && GoodToken(t) && AllGood(b)
    ensures AllGood(a + ([t] + b)) && AllGood([t] + b) && AllGood(b + [t])
  {
  }

  lemma {:induction false} BareIsGood(e: Expr)
    requires WellFormed(e)
    ensures AllGood(Bare(e))
    decreases e, 0
  {
    match e
    case Num(_) =>
    case Name(_) =>
    case Defined(_) =>
    case Unary(op, a) =>
      PrintIsGood(a, 0);
      GoodParts([], Token(Op, op), Print(a, 0));
    case Binary(op, a, b) =>
      PrintIsGood(a, LevelOf(op));
      PrintIsGood(b, LevelOf(op) - 1);
      GoodParts(Print(a, LevelOf(op)), Token(Op, op), Print(b, LevelOf(op) - 1));
  }

  lemma {:induction false} PrintIsGood(e: Expr, level: nat)
    requires WellFormed(e)
    ensures AllGood(Print(e, level))
    decreases e, 1
  {
    BareIsGood(e);
    if Level(e) > level {
      GoodParts([], Token(Op, ")"), Bare(e));
      GoodParts([], Token(Op, "("), Bare(e) + [Token(Op, ")")]);
    }
  }

  lemma {:induction false} NameEndIs(input: string, pos: nat, end: nat)
    requires pos <= end <= |input| && (end < |input| ==> !InName(input[end]))
    requires forall k {:trigger input[k]} :: pos <= k < end ==> InName(input[k])
    ensures NameEnd(input, pos) == end
    decreases end - pos
  {
    if pos < end {
      NameEndIs(input, pos + 1, end);
    }
  }

  lemma {:induction false} DigitsEndIs(input: string, pos: nat, end: nat)
    requires pos <= end <= |input| && (end < |input| ==> !IsDigit(input[end]))
    requires forall k {:trigger input[k]} :: pos <= k < end ==> IsDigit(input[k])
    ensures DigitsEnd(input, pos) == end
    decreases end - pos
  {
    if pos < end {
      DigitsEndIs(input, pos + 1, end);
    }
  }

  lemma NextIs(input: string, pos: nat, t: Token)
    requires GoodToken(t) && pos + |t.value| <= |input| && input[pos..pos + |t.value|] == t.value
    requires pos + |t.value| < |input| ==> !Continues(t, input[pos + |t.value|])
    ensures NextAt(input, pos) == Lexeme(t, pos + |t.value|)
  {
    var end := pos + |t.value|;
    assert forall k :: pos <= k < end ==> input[k] == t.value[k - pos];
    match t.kind
    case Number =>
      assert IsDigit(t.value[0]);
      DigitsEndIs(input, pos, end);
    case Ident =>
      assert StartsName(t.value[0]);
      NameEndIs(input, pos, end);
    case Op =>
      assert t.value == input[pos..end];
  }

  lemma CutToken(input: string, pos: nat, v: string, rest: string)
    requires pos <= |input| && input[pos..] == v + rest
    ensures pos + |v| <= |input| && input[pos..pos + |v|] == v && input[pos + |v|..] == rest
    ensures rest != "" ==> pos + |v| < |input| && input[pos + |v|] == rest[0]
  {
    var text := v + rest;
    assert text[..|v|] == v && text[|v|..] == rest;
    assert input[pos..][|v|..] == input[pos + |v|..];
    assert input[pos..][..|v|] == input[pos..pos + |v|];
  }

  lemma {:induction false} SkipBlanks(input: string, pos: nat, gap: string, rest: string)
    requires pos <= |input| && input[pos..] == gap + rest && IsBlank(gap)
    ensures pos + |gap| <= |input| && input[pos + |gap|..] == rest
    ensures Tokens(input, pos) == Tokens(input, pos + |gap|)
    decreases |gap|
  {
    CutToken(input, pos, gap, rest);
    if gap != "" {
      assert gap + rest == [gap[0]] + (gap[1..] + rest);
      CutToken(input, pos, [gap[0]], gap[1..] + rest);
      assert input[pos] == input[pos..pos + 1][0] == gap[0];
      assert NextAt(input, pos) == NextAt(input, pos + 1);
      SkipBlanks(input, pos + 1, gap[1..], rest);
    }
  }

  lemma TokenEnds(input: string, pos: nat, t: Token, rest: string)
    requires pos <= |input| && input[pos..] == t.value + rest && GoodToken(t)
    requires rest != "" ==> !Continues(t, rest[0])
    ensures var end := pos + |t.value|;
            && end <= |input| && input[end..] == rest && Tokens(input, pos) == [t] + Tokens(input, end)
  {
    CutToken(input, pos, t.value, rest);
    assert pos + |t.value| < |input| ==> rest != "";
    NextIs(input, pos, t);
  }

  lemma GapEnds(t: Token, gap: string, rest: string)
    requires IsBlank(gap) && (gap == "" && rest != "" ==> !Continues(t, rest[0]))
    ensures gap + rest != "" ==> !Continues(t, (gap + rest)[0])
  {
    if gap == "" {
      assert gap + rest == rest;
    } else {
      assert (gap + rest)[0] == gap[0];
    }
  }

  lemma TokenIsRead(input: string, pos: nat, t: Token, gap: string, rest: string)
    requires pos <= |input| && input[pos..] == t.value + (gap + rest) && GoodToken(t) && IsBlank(gap)
    requires gap == "" && rest != "" ==> !Continues(t, rest[0])
    ensures var end := pos + |t.value| + |gap|;
            && end <= |input| && input[end..] == rest && Tokens(input, pos) == [t] + Tokens(input, end)
  {
    GapEnds(t, gap, rest);
    TokenEnds(input, pos, t, gap + rest);
    SkipBlanks(input, pos + |t.value|, gap, rest);
    assert pos + |t.value| + |gap| == (pos + |t.value|) + |gap|;
  }

  lemma LaidBegins(tokens: seq<Token>, gaps: seq<string>, k: nat)
    requires k < |tokens| == |gaps| && GoodToken(tokens[k])
    ensures tokens[k].value != "" && Laid(tokens, gaps, k) != "" && Laid(tokens, gaps, k)[0] == tokens[k].value[0]
  {
  }

  lemma GapIsOk(tokens: seq<Token>, gaps: seq<string>, k: nat)
    requires IsLayout(tokens, gaps) && AllGood(tokens) && k < |tokens|
    ensures IsBlank(gaps[k])
    ensures gaps[k] == "" && Laid(tokens, gaps, k + 1) != "" ==> !Continues(tokens[k], Laid(tokens, gaps, k + 1)[0])
  {
    if k + 1 < |tokens| {
      GoodAt(tokens, k + 1);
      LaidBegins(tokens, gaps, k + 1);
    }
  }

  lemma {:induction false} LaidIsRead(input: string, pos: nat, tokens: seq<Token>, gaps: seq<string>, k: nat)
    requires IsLayout(tokens, gaps) && AllGood(tokens)
    requires k <= |tokens| && pos <= |input| && input[pos..] == Laid(tokens, gaps, k)
    ensures Tokens(input, pos) == tokens[k..]
    decreases |tokens| - k
  {
    if k == |tokens| {
      assert pos == |input|;
    } else {
      GoodAt(tokens, k);
      GapIsOk(tokens, gaps, k);
      TokenIsRead(input, pos, tokens[k], gaps[k], Laid(tokens, gaps, k + 1));
      LaidIsRead(input, pos + |tokens[k].value| + |gaps[k]|, tokens, gaps, k + 1);
      TailIs(tokens, k);
    }
  }

  lemma TailIs(tokens: seq<Token>, k: nat)
    requires k < |tokens|
    ensures tokens[k..] == [tokens[k]] + tokens[k + 1..]
  {
  }

  lemma GoodAt(tokens: seq<Token>, k: nat)
    requires k < |tokens| && AllGood(tokens)
    ensures GoodToken(tokens[k])
  {
    assert tokens[k] in tokens;
  }

  // ---------------------------------------------------------------- the evaluator computes

  /** The evaluator consumes all tokens of a written tree and computes it. */
  lemma TokensCompute(e: Expr, macros: Macros)
    requires WellFormed(e)
    ensures ParseTokens(Print(e, 5), macros) == Computed(e, macros)
    ensures LevelAt(Print(e, 5), macros, 0, 5) ==
      match Computed(e, macros)
      case Panic => DivideByZero
      case Value(v) => Parsed(v, |Print(e, 5)|)
  {
    var tokens := Print(e, 5);
    assert tokens[0..0 + |tokens|] == tokens;
    ReadPrint(tokens, macros, 0, e, 5);
  }

  /** From text to value, however the text is laid out. */
  lemma TextComputes(e: Expr, macros: Macros, indent: string, gaps: seq<string>)
    requires WellFormed(e) && IsBlank(indent) && IsLayout(Print(e, 5), gaps)
    ensures Evaluate(indent + Laid(Print(e, 5), gaps, 0), macros) == Computed(e, macros)
  {
    var tokens := Print(e, 5);
    var text := indent + Laid(tokens, gaps, 0);
    PrintIsGood(e, 5);
    assert text[0..] == text;
    SkipBlanks(text, 0, indent, Laid(tokens, gaps, 0));
    LaidIsRead(text, |indent|, tokens, gaps, 0);
    assert tokens[0..] == tokens;
    TokensCompute(e, macros);
  }
}
