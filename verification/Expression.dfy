/** The evaluator of `#if` conditions: a tokenizer, a recursive-descent parser that computes as it parses, and the
    meaning of expression trees it agrees with. A char stands for one byte. */
module Expression {

  // ---------------------------------------------------------------- machine integers

  const LIMIT: int := 0x8000_0000_0000_0000

  /** Go's `int` on a 64-bit machine. */
  function Wrap(x: int): (r: int)
    ensures -LIMIT <= r < LIMIT && (r - x) % (2 * LIMIT) == 0
    ensures -LIMIT <= x < LIMIT ==> r == x
  {
    (x + LIMIT) % (2 * LIMIT) - LIMIT
  }

  /** Division that rounds towards zero. */
  function Quotient(a: int, b: int): (q: int)
    requires b != 0
    ensures a >= 0 && b > 0 ==> q == a / b
  {
    if (a < 0) == (b < 0) then Abs(a) / Abs(b) else -(Abs(a) / Abs(b))
  }

  function Abs(a: int): nat {
    if a < 0 then -a else a
  }

  function Truth(b: bool): int {
    if b then 1 else 0
  }

  // ---------------------------------------------------------------- characters and numbers

  predicate IsSpace(c: char) {
    c == ' ' || c == '\t' || c == '\n' || c == '\r'
  }

  predicate IsDigit(c: char) {
    '0' <= c <= '9'
  }

  predicate StartsName(c: char) {
    'a' <= c <= 'z' || 'A' <= c <= 'Z' || c == '_'
  }

  predicate InName(c: char) {
    StartsName(c) || IsDigit(c)
  }

  predicate AllDigits(s: string) {
    s != "" && forall k {:trigger s[k]} :: 0 <= k < |s| ==> IsDigit(s[k])
  }

  function Decimal(s: string): nat
    requires forall k {:trigger s[k]} :: 0 <= k < |s| ==> IsDigit(s[k])
  {
    if s == "" then 0
    else
      assert IsDigit(s[|s| - 1]);
      10 * Decimal(s[..|s| - 1]) + (s[|s| - 1] - '0') as int
  }

  /** `strconv.Atoi`: the number and whether it was one; out of range gives the nearest bound and an error. */
  function Atoi(s: string): (r: (int, bool))
    ensures -LIMIT <= r.0 < LIMIT
  {
    var digits := if s != "" && (s[0] == '-' || s[0] == '+') then s[1..] else s;
    if !AllDigits(digits) then (0, false)
    else if s[0] == '-' then
      if Decimal(digits) > LIMIT then (-LIMIT, false) else (-(Decimal(digits) as int), true)
    else
      if Decimal(digits) >= LIMIT then (LIMIT - 1, false) else (Decimal(digits), true)
  }

  // ---------------------------------------------------------------- tokens

  datatype Kind = Number | Ident | Op

  datatype Token = Token(kind: Kind, value: string)

  datatype Lexeme = Lexeme(token: Token, end: nat) | NoMore

  function NameEnd(input: string, pos: nat): (e: nat)
    requires pos <= |input|
    ensures pos <= e <= |input| && (pos < |input| && InName(input[pos]) ==> pos < e)
    decreases |input| - pos
  {
    if pos < |input| && InName(input[pos]) then NameEnd(input, pos + 1) else pos
  }

  function DigitsEnd(input: string, pos: nat): (e: nat)
    requires pos <= |input|
    ensures pos <= e <= |input| && (pos < |input| && IsDigit(input[pos]) ==> pos < e)
    decreases |input| - pos
  {
    if pos < |input| && IsDigit(input[pos]) then DigitsEnd(input, pos + 1) else pos
  }

  predicate IsSingle(c: char) {
    c in "()+-*/%"
  }

  predicate IsPaired(c: char) {
    c in "!=<>"
  }

  /** The next token from `pos` on. Blanks and bytes that begin no token are skipped. */
  function NextAt(input: string, pos: nat): (l: Lexeme)
    requires pos <= |input|
    ensures l.Lexeme? ==> pos < l.end <= |input|
    decreases |input| - pos
  {
    if pos == |input| then NoMore
    else
      var c := input[pos];
      if IsSpace(c) then NextAt(input, pos + 1)
      else if IsDigit(c) then
        var e := DigitsEnd(input, pos);
        Lexeme(Token(Number, input[pos..e]), e)
      else if StartsName(c) then
        var e := NameEnd(input, pos);
        Lexeme(Token(Ident, input[pos..e]), e)
      else if IsSingle(c) then Lexeme(Token(Op, [c]), pos + 1)
      else if IsPaired(c) then
        if pos + 1 < |input| && input[pos + 1] == '=' then Lexeme(Token(Op, [c, '=']), pos + 2)
        else Lexeme(Token(Op, [c]), pos + 1)
      else NextAt(input, pos + 1)
  }

  function Tokens(input: string, pos: nat): (t: seq<Token>)
    requires pos <= |input|
    decreases |input| - pos
  {
    match NextAt(input, pos)
    case NoMore => []
    case Lexeme(token, end) => [token] + Tokens(input, end)
  }

  class Tokenizer {
    const input: string
    var pos: nat

    constructor (input: string)
      ensures this.input == input && pos == 0
    {
      this.input := input;
      pos := 0;
    }

    method Next() returns (l: Lexeme)
      requires pos <= |input|
      modifies this
      ensures l == NextAt(input, old(pos)) && pos <= |input|
      ensures l.Lexeme? ==> pos == l.end
    {
      while pos < |input|
        invariant pos <= |input| && NextAt(input, pos) == NextAt(input, old(pos))
      {
        var c := input[pos];
        if IsSpace(c) {
          pos := pos + 1;
          continue;
        }
        if IsDigit(c) {
          var start := pos;
          while pos < |input| && IsDigit(input[pos])
            invariant start <= pos <= |input| && DigitsEnd(input, pos) == DigitsEnd(input, start)
          {
            pos := pos + 1;
          }
          return Lexeme(Token(Number, input[start..pos]), pos);
        }
        if StartsName(c) {
          var start := pos;
          while pos < |input| && InName(input[pos])
            invariant start <= pos <= |input| && NameEnd(input, pos) == NameEnd(input, start)
          {
            pos := pos + 1;
          }
          return Lexeme(Token(Ident, input[start..pos]), pos);
        }
        if IsSingle(c) {
          pos := pos + 1;
          return Lexeme(Token(Op, [c]), pos);
        }
        if IsPaired(c) {
          if pos + 1 < |input| && input[pos + 1] == '=' {
            pos := pos + 2;
            return Lexeme(Token(Op, [c, '=']), pos);
          }
          pos := pos + 1;
          return Lexeme(Token(Op, [c]), pos);
        }
        pos := pos + 1;
      }
      return NoMore;
    }
  }

  method Tokenize(input: string) returns (tokens: seq<Token>)
    ensures tokens == Tokens(input, 0)
  {
    tokens := [];
    var t := new Tokenizer(input);
    while true
      invariant t.pos <= |input| && t.input == input && tokens + Tokens(input, t.pos) == Tokens(input, 0)
      decreases |input| - t.pos
    {
      var l := t.Next();
      if l.NoMore? {
        return;
      }
      tokens := tokens + [l.token];
    }
  }

  /** No text gives a token `&&` or `||`: the two operators the parser knows and the tokenizer does not. */
  lemma {:induction false} NoLogicTokens(input: string, pos: nat, k: nat)
    requires pos <= |input| && k < |Tokens(input, pos)|
    ensures Tokens(input, pos)[k].value != "&&" && Tokens(input, pos)[k].value != "||"
    decreases |input| - pos
  {
    var l := NextAt(input, pos);
    StartsSensibly(input, pos);
    if k > 0 {
      NoLogicTokens(input, l.end, k - 1);
    }
  }

  lemma {:induction false} StartsSensibly(input: string, pos: nat)
    requires pos <= |input|
    ensures NextAt(input, pos).Lexeme? ==>
      var v := NextAt(input, pos).token.value; v != "" && v[0] != '&' && v[0] != '|'
    decreases |input| - pos
  {
    if pos < |input| {
      StartsSensibly(input, pos + 1);
    }
  }

  // ---------------------------------------------------------------- the parser as functions

  type Macros = map<string, string>

  datatype Parsed = Parsed(value: int, pos: nat) | DivideByZero

  datatype Outcome = Value(v: int) | Panic

  /** From the tightest binary operators, 1, to the loosest, 5. */
  predicate IsOp(level: nat, value: string) {
    match level
    case 1 => value == "*" || value == "/" || value == "%"
    case 2 => value == "+" || value == "-"
    case 3 => value == "==" || value == "!=" || value == "<=" || value == ">=" || value == "<" || value == ">"
    case 4 => value == "&&"
    case 5 => value == "||"
    case _ => false
  }

  predicate IsUnary(value: string) {
    value == "!" || value == "+" || value == "-"
  }

  function Apply(op: string, a: int, b: int): Outcome {
    if op == "*" then Value(Wrap(a * b))
    else if op == "/" then if b == 0 then Panic else Value(Wrap(Quotient(a, b)))
    else if op == "%" then if b == 0 then Panic else Value(Wrap(a - b * Quotient(a, b)))
    else if op == "+" then Value(Wrap(a + b))
    else if op == "-" then Value(Wrap(a - b))
    else if op == "==" then Value(Truth(a == b))
    else if op == "!=" then Value(Truth(a != b))
    else if op == "<=" then Value(Truth(a <= b))
    else if op == ">=" then Value(Truth(a >= b))
    else if op == "<" then Value(Truth(a < b))
    else if op == ">" then Value(Truth(a > b))
    else if op == "&&" then Value(Truth(a != 0 && b != 0))
    else Value(Truth(a != 0 || b != 0))
  }

  function ApplyUnary(op: string, a: int): int {
    if op == "!" then Truth(a == 0) else if op == "+" then a else Wrap(-a)
  }

  predicate Peek(tokens: seq<Token>, pos: nat, value: string) {
    pos < |tokens| && tokens[pos].value == value
  }

  /** What blanks a number may be wrapped in inside a macro. */
  predicate IsTrimmed(c: char) {
    IsSpace(c) || c == '\U{0B}' || c == '\U{0C}'
  }

  function TrimLeft(s: string): (r: string)
    ensures |r| <= |s| && (r != "" ==> !IsTrimmed(r[0]))
  {
    if s != "" && IsTrimmed(s[0]) then TrimLeft(s[1..]) else s
  }

  function TrimRight(s: string): string {
    if s != "" && IsTrimmed(s[|s| - 1]) then TrimRight(s[..|s| - 1]) else s
  }

  function TrimSpace(s: string): string {
    TrimRight(TrimLeft(s))
  }

  /** A name counts as the number its macro holds, as 1 if the macro holds other text, and as 0 otherwise. */
  function NameValue(macros: Macros, name: string): int {
    if name !in macros then 0
    else
      var (v, ok) := Atoi(TrimSpace(macros[name]));
      if ok then v else Truth(macros[name] != "")
  }

  /** `defined ( name )` from behind the word. Malformed text counts as 0 and is read as far as it fits. */
  function DefinedAt(tokens: seq<Token>, macros: Macros, pos: nat): (r: Parsed)
    requires pos <= |tokens|
    ensures r.Parsed? && pos <= r.pos <= |tokens|
  {
    if !Peek(tokens, pos, "(") then Parsed(0, pos)
    else if pos + 1 == |tokens| || tokens[pos + 1].kind != Ident then Parsed(0, pos + 1)
    else if !Peek(tokens, pos + 2, ")") then Parsed(0, pos + 2)
    else Parsed(Truth(tokens[pos + 1].value in macros), pos + 3)
  }

  function PrimaryAt(tokens: seq<Token>, macros: Macros, pos: nat): (r: Parsed)
    requires pos <= |tokens|
    ensures r.Parsed? ==> pos <= r.pos <= |tokens|
    decreases |tokens| - pos, 0
  {
    if pos == |tokens| then Parsed(0, pos)
    else
      var t := tokens[pos];
      if t.kind == Number then Parsed(Atoi(t.value).0, pos + 1)
      else if t.kind == Ident then
        if t.value == "defined" then DefinedAt(tokens, macros, pos + 1)
        else Parsed(NameValue(macros, t.value), pos + 1)
      else if t.value == "(" then
        match LevelAt(tokens, macros, pos + 1, 5)
        case DivideByZero => DivideByZero
        case Parsed(v, p) => Parsed(v, if Peek(tokens, p, ")") then p + 1 else p)
      else Parsed(0, pos)
  }

  function UnaryAt(tokens: seq<Token>, macros: Macros, pos: nat): (r: Parsed)
    requires pos <= |tokens|
    ensures r.Parsed? ==> pos <= r.pos <= |tokens|
    decreases |tokens| - pos, 1
  {
    if pos < |tokens| && IsUnary(tokens[pos].value) then
      match UnaryAt(tokens, macros, pos + 1)
      case DivideByZero => DivideByZero
      case Parsed(v, p) => Parsed(ApplyUnary(tokens[pos].value, v), p)
    else PrimaryAt(tokens, macros, pos)
  }

  /** Binary operators of one level, left to right. */
  function LevelAt(tokens: seq<Token>, macros: Macros, pos: nat, level: nat): (r: Parsed)
    requires pos <= |tokens|
    ensures r.Parsed? ==> pos <= r.pos <= |tokens|
    decreases |tokens| - pos, 2 * level + 2
  {
    if level == 0 then UnaryAt(tokens, macros, pos)
    else
      match LevelAt(tokens, macros, pos, level - 1)
      case DivideByZero => DivideByZero
      case Parsed(v, p) => LoopAt(tokens, macros, p, level, v)
  }

  /** The rest of a chain of operators. The right operand of `&&` and `||` is not even read when the left one
      decides. */
  function LoopAt(tokens: seq<Token>, macros: Macros, pos: nat, level: nat, left: int): (r: Parsed)
    requires pos <= |tokens| && level > 0
    ensures r.Parsed? ==> pos <= r.pos <= |tokens|
    decreases |tokens| - pos, 2 * level + 1
  {
    if pos < |tokens| && IsOp(level, tokens[pos].value) then
      var op := tokens[pos].value;
      if op == "||" && left != 0 then LoopAt(tokens, macros, pos + 1, level, 1)
      else if op == "&&" && left == 0 then LoopAt(tokens, macros, pos + 1, level, 0)
      else
        match LevelAt(tokens, macros, pos + 1, level - 1)
        case DivideByZero => DivideByZero
        case Parsed(right, p) =>
          match Apply(op, left, right)
          case Panic => DivideByZero
          case Value(v) => LoopAt(tokens, macros, p, level, v)
    else Parsed(left, pos)
  }

  function ParseTokens(tokens: seq<Token>, macros: Macros): Outcome {
    if tokens == [] then Value(0)
    else
      match LevelAt(tokens, macros, 0, 5)
      case DivideByZero => Panic
      case Parsed(v, _) => Value(v)
  }

  function Evaluate(input: string, macros: Macros): Outcome {
    ParseTokens(Tokens(input, 0), macros)
  }

  // ---------------------------------------------------------------- the parser

  /** A method came to the value and the position the functions give. */
  ghost predicate Agrees(r: Outcome, pos: nat, spec: Parsed) {
    match spec
    case DivideByZero => r == Panic
    case Parsed(v, p) => r == Value(v) && pos == p
  }

  class Parser {
    const tokens: seq<Token>
    const macros: Macros
    var pos: nat

    constructor (input: string, macros: Macros)
      ensures tokens == Tokens(input, 0) && this.macros == macros && pos == 0
    {
      var t := Tokenize(input);
      tokens := t;
      this.macros := macros;
      pos := 0;
    }

    predicate PeekValue(value: string)
      reads this
    {
      pos < |tokens| && tokens[pos].value == value
    }

    method Parse() returns (r: Outcome)
      requires pos == 0
      modifies this
      ensures r == ParseTokens(tokens, macros)
    {
      if |tokens| == 0 {
        return Value(0);
      }
      r := ParseOr();
    }

    method ParseOr() returns (r: Outcome)
      requires pos <= |tokens|
      modifies this
      ensures old(pos) <= pos <= |tokens|
      ensures Agrees(r, pos, LevelAt(tokens, macros, old(pos), 5))
      decreases |tokens| - pos, 12
    {
      r := ParseAnd();
      while r.Value? && PeekValue("||")
        invariant old(pos) <= pos <= |tokens|
        invariant LevelAt(tokens, macros, old(pos), 5) ==
                  if r.Panic? then DivideByZero else LoopAt(tokens, macros, pos, 5, r.v)
        decreases |tokens| - pos, r.Value?
      {
        pos := pos + 1;
        if r.v != 0 {
          r := Value(1);
          continue;
        }
        var right := ParseAnd();
        r := if right.Panic? then Panic else Value(Truth(right.v != 0));
      }
    }

    method ParseAnd() returns (r: Outcome)
      requires pos <= |tokens|
      modifies this
      ensures old(pos) <= pos <= |tokens|
      ensures Agrees(r, pos, LevelAt(tokens, macros, old(pos), 4))
      decreases |tokens| - pos, 10
    {
      r := ParseCompare();
      while r.Value? && PeekValue("&&")
        invariant old(pos) <= pos <= |tokens|
        invariant LevelAt(tokens, macros, old(pos), 4) ==
                  if r.Panic? then DivideByZero else LoopAt(tokens, macros, pos, 4, r.v)
        decreases |tokens| - pos, r.Value?
      {
        pos := pos + 1;
        if r.v == 0 {
          r := Value(0);
          continue;
        }
        var right := ParseCompare();
        r := if right.Panic? then Panic else Value(Truth(right.v != 0));
      }
    }

    method ParseCompare() returns (r: Outcome)
      requires pos <= |tokens|
      modifies this
      ensures old(pos) <= pos <= |tokens|
      ensures Agrees(r, pos, LevelAt(tokens, macros, old(pos), 3))
      decreases |tokens| - pos, 8
    {
      r := ParseAdd();
      while r.Value? && pos < |tokens| && IsOp(3, tokens[pos].value)
        invariant old(pos) <= pos <= |tokens|
        invariant LevelAt(tokens, macros, old(pos), 3) ==
                  if r.Panic? then DivideByZero else LoopAt(tokens, macros, pos, 3, r.v)
        decreases |tokens| - pos, r.Value?
      {
        var op := tokens[pos].value;
        pos := pos + 1;
        var right := ParseAdd();
        r := if right.Panic? then Panic else Value(Truth(
          if op == "==" then r.v == right.v
          else if op == "!=" then r.v != right.v
          else if op == "<=" then r.v <= right.v
          else if op == ">=" then r.v >= right.v
          else if op == "<" then r.v < right.v
          else r.v > right.v));
      }
    }

    method ParseAdd() returns (r: Outcome)
      requires pos <= |tokens|
      modifies this
      ensures old(pos) <= pos <= |tokens|
      ensures Agrees(r, pos, LevelAt(tokens, macros, old(pos), 2))
      decreases |tokens| - pos, 6
    {
      r := ParseMul();
      while r.Value? && (PeekValue("+") || PeekValue("-"))
        invariant old(pos) <= pos <= |tokens|
        invariant LevelAt(tokens, macros, old(pos), 2) ==
                  if r.Panic? then DivideByZero else LoopAt(tokens, macros, pos, 2, r.v)
        decreases |tokens| - pos, r.Value?
      {
        if PeekValue("+") {
          pos := pos + 1;
          var right := ParseMul();
          r := if right.Panic? then Panic else Value(Wrap(r.v + right.v));
          continue;
        }
        pos := pos + 1;
        var right := ParseMul();
        r := if right.Panic? then Panic else Value(Wrap(r.v - right.v));
      }
    }

    method ParseMul() returns (r: Outcome)
      requires pos <= |tokens|
      modifies this
      ensures old(pos) <= pos <= |tokens|
      ensures Agrees(r, pos, LevelAt(tokens, macros, old(pos), 1))
      decreases |tokens| - pos, 4
    {
      r := ParseUnary();
      while r.Value? && (PeekValue("*") || PeekValue("/") || PeekValue("%"))
        invariant old(pos) <= pos <= |tokens|
        invariant LevelAt(tokens, macros, old(pos), 1) ==
                  if r.Panic? then DivideByZero else LoopAt(tokens, macros, pos, 1, r.v)
        decreases |tokens| - pos, r.Value?
      {
        if PeekValue("*") {
          pos := pos + 1;
          var right := ParseUnary();
          r := if right.Panic? then Panic else Apply("*", r.v, right.v);
          continue;
        }
        if PeekValue("/") {
          pos := pos + 1;
          var right := ParseUnary();
          r := if right.Panic? then Panic else Apply("/", r.v, right.v);
          continue;
        }
        pos := pos + 1;
        var right := ParseUnary();
        r := if right.Panic? then Panic else Apply("%", r.v, right.v);
      }
    }

    method ParseUnary() returns (r: Outcome)
      requires pos <= |tokens|
      modifies this
      ensures old(pos) <= pos <= |tokens|
      ensures Agrees(r, pos, UnaryAt(tokens, macros, old(pos)))
      decreases |tokens| - pos, 2
    {
      if PeekValue("!") {
        pos := pos + 1;
        r := ParseUnary();
        return if r.Panic? then Panic else Value(Truth(r.v == 0));
      }
      if PeekValue("+") {
        pos := pos + 1;
        r := ParseUnary();
        return;
      }
      if PeekValue("-") {
        pos := pos + 1;
        r := ParseUnary();
        return if r.Panic? then Panic else Value(Wrap(-r.v));
      }
      r := ParsePrimary();
    }

    method ParsePrimary() returns (r: Outcome)
      requires pos <= |tokens|
      modifies this
      ensures old(pos) <= pos <= |tokens|
      ensures Agrees(r, pos, PrimaryAt(tokens, macros, old(pos)))
      decreases |tokens| - pos, 1
    {
      if pos >= |tokens| {
        return Value(0);
      }
      var current := tokens[pos];
      if current.kind == Number {
        pos := pos + 1;
        return Value(Atoi(current.value).0);
      }
      if current.kind == Ident {
        pos := pos + 1;
        if current.value == "defined" {
          r := ParseDefined();
          return;
        }
        return Value(NameValue(macros, current.value));
      }
      if current.value == "(" {
        pos := pos + 1;
        r := ParseOr();
        if r.Value? && pos < |tokens| && tokens[pos].value == ")" {
          pos := pos + 1;
        }
        return;
      }
      return Value(0);
    }

    method ParseDefined() returns (r: Outcome)
      requires pos <= |tokens|
      modifies this
      ensures old(pos) <= pos <= |tokens|
      ensures Agrees(r, pos, DefinedAt(tokens, macros, old(pos)))
    {
      if pos < |tokens| && tokens[pos].value == "(" {
        pos := pos + 1;
        if pos < |tokens| {
          var arg := tokens[pos];
          if arg.kind == Ident {
            pos := pos + 1;
            if pos < |tokens| && tokens[pos].value == ")" {
              pos := pos + 1;
              return Value(Truth(arg.value in macros));
            }
          }
        }
      }
      return Value(0);
    }
  }

  method EvaluateText(input: string, macros: Macros) returns (r: Outcome)
    ensures r == Evaluate(input, macros)
  {
    var p := new Parser(input, macros);
    r := p.Parse();
  }
}
