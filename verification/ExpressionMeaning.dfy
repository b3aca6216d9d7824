/** What a condition means, said by itself: numbers by their digits, operators by what their results are, macros by the
    text they hold. The evaluator gives just that value. */
module ExpressionMeaning {
  import opened Expression
  import opened ExpressionTrees

  // ---------------------------------------------------------------- numbers

  ghost function Power10(n: nat): nat {
    if n == 0 then 1 else 10 * Power10(n - 1)
  }

  predicate IsDigits(s: string) {
    forall k {:trigger s[k]} :: 0 <= k < |s| ==> '0' <= s[k] <= '9'
  }

  function DigitAt(s: string, k: nat): nat
    requires k < |s| && IsDigits(s)
  {
    (s[k] - '0') as int
  }

  /** The sum of the digits, each with its weight. */
  ghost function NumberOf(s: string): nat
    requires IsDigits(s)
  {
    if s == "" then 0 else DigitAt(s, 0) * Power10(|s| - 1) + NumberOf(s[1..])
  }

  lemma {:induction false} NumberOfMore(s: string)
    requires IsDigits(s) && s != ""
    ensures NumberOf(s) == 10 * NumberOf(s[..|s| - 1]) + DigitAt(s, |s| - 1)
  {
    var front, n := s[..|s| - 1], |s| - 1;
    if n == 0 {
      assert front == "" && s[1..] == "";
    } else {
      var rest := s[1..];
      NumberOfMore(rest);
      assert rest[..|rest| - 1] == front[1..];
      assert DigitAt(rest, n - 1) == DigitAt(s, n) && DigitAt(front, 0) == DigitAt(s, 0);
      Weight(DigitAt(s, 0), Power10(n - 1));
    }
  }

  lemma Weight(d: nat, p: nat)
    ensures d * (10 * p) == 10 * (d * p)
  {
  }

  lemma {:induction false} DecimalIs(s: string)
    requires IsDigits(s)
    ensures (forall k {:trigger s[k]} :: 0 <= k < |s| ==> IsDigit(s[k])) && Decimal(s) == NumberOf(s)
  {
    if s != "" {
      DecimalIs(s[..|s| - 1]);
      NumberOfMore(s);
    }
  }

  ghost predicate InRange(v: int) {
    -0x8000_0000_0000_0000 <= v <= 0x7fff_ffff_ffff_ffff
  }

  /** The 64-bit integer that differs from `x` by a multiple of 2^64. */
  ghost predicate IsWrapped(v: int, x: int) {
    InRange(v) && (v - x) % 0x1_0000_0000_0000_0000 == 0
  }

  lemma WrappedOnce(v: int, w: int, x: int)
    requires IsWrapped(v, x) && IsWrapped(w, x)
    ensures v == w
  {
  }

  function Size(a: int): nat {
    if a < 0 then -a else a
  }

  /** Quotient and remainder of a division that rounds towards zero. */
  ghost predicate IsDivision(a: int, b: int, q: int, r: int) {
    a == b * q + r && Size(r) < Size(b) && (r == 0 || (r < 0 <==> a < 0))
  }

  lemma SizeOfProduct(b: int, d: int)
    ensures Size(b * d) == Size(b) * Size(d)
  {
    if b < 0 && d < 0 {
      assert b * d == (-b) * (-d);
    } else if b < 0 {
      assert b * d == -((-b) * d);
    } else if d < 0 {
      assert b * d == -(b * (-d));
    }
  }

  lemma AtLeast(b: nat, d: nat)
    requires d > 0
    ensures b * d >= b
  {
    assert b * d == b + b * (d - 1);
  }

  lemma DivisionOnce(a: int, b: int, q: int, r: int, q': int, r': int)
    requires b != 0 && IsDivision(a, b, q, r) && IsDivision(a, b, q', r')
    ensures q == q' && r == r'
  {
    assert b * (q - q') == r' - r;
    if q != q' {
      SizeOfProduct(b, q - q');
      AtLeast(Size(b), Size(q - q'));
      assert false;
    }
  }

  lemma QuotientDivides(a: int, b: int)
    requires b != 0
    ensures IsDivision(a, b, Quotient(a, b), a - b * Quotient(a, b))
  {
    var x: int, y: int := Abs(a), Abs(b);
    var q := x / y;
    assert x == y * q + x % y;
    SignedProduct(b, q);
    if (a < 0) == (b < 0) {
      assert b * q == if a < 0 then -(y * q) else y * q;
    } else {
      assert b * (-q) == if a < 0 then -(y * q) else y * q;
    }
  }

  lemma SignedProduct(b: int, q: int)
    ensures b * (-q) == -(b * q)
    ensures b >= 0 ==> b * q == Abs(b) * q
    ensures b < 0 ==> b * q == -(Abs(b) * q)
  {
  }

  // ---------------------------------------------------------------- operators

  ghost function Says(b: bool): Outcome {
    Value(if b then 1 else 0)
  }

  ghost predicate IsQuotient(v: int, a: int, b: int) {
    exists q, r :: IsDivision(a, b, q, r) && IsWrapped(v, q)
  }

  ghost predicate IsRemainder(v: int, a: int, b: int) {
    exists q, r :: IsDivision(a, b, q, r) && IsWrapped(v, r)
  }

  /** What a binary operator makes of two 64-bit integers: a zero divisor is a panic, comparisons give 0 or 1. */
  ghost predicate Combines(op: string, a: int, b: int, o: Outcome) {
    if op == "/" || op == "%" then
      if b == 0 then o == Panic
      else o.Value? && if op == "/" then IsQuotient(o.v, a, b) else IsRemainder(o.v, a, b)
    else if op == "*" || op == "+" || op == "-" then
      o.Value? && IsWrapped(o.v, if op == "*" then a * b else if op == "+" then a + b else a - b)
    else if op == "==" then o == Says(a == b)
    else if op == "!=" then o == Says(a != b)
    else if op == "<=" then o == Says(a <= b)
    else if op == ">=" then o == Says(a >= b)
    else if op == "<" then o == Says(a < b)
    else op == ">" && o == Says(a > b)
  }

  lemma WrapIsWrapped(x: int)
    ensures IsWrapped(Wrap(x), x)
  {
  }

  /** Each operator of the evaluator computes what it should. */
  lemma ApplyCombines(op: string, a: int, b: int)
    requires LevelOf(op) > 0
    ensures Combines(op, a, b, Apply(op, a, b))
  {
    if op == "/" || op == "%" {
      if b != 0 {
        QuotientDivides(a, b);
        WrapIsWrapped(Quotient(a, b));
        WrapIsWrapped(a - b * Quotient(a, b));
      }
    } else {
      WrapIsWrapped(a * b);
      WrapIsWrapped(a + b);
      WrapIsWrapped(a - b);
    }
  }

  lemma QuotientOnce(v: int, w: int, a: int, b: int)
    requires b != 0 && IsQuotient(v, a, b) && IsQuotient(w, a, b)
    ensures v == w
  {
    var q, r :| IsDivision(a, b, q, r) && IsWrapped(v, q);
    var q', r' :| IsDivision(a, b, q', r') && IsWrapped(w, q');
    DivisionOnce(a, b, q, r, q', r');
    WrappedOnce(v, w, q);
  }

  lemma RemainderOnce(v: int, w: int, a: int, b: int)
    requires b != 0 && IsRemainder(v, a, b) && IsRemainder(w, a, b)
    ensures v == w
  {
    var q, r :| IsDivision(a, b, q, r) && IsWrapped(v, r);
    var q', r' :| IsDivision(a, b, q', r') && IsWrapped(w, r');
    DivisionOnce(a, b, q, r, q', r');
    WrappedOnce(v, w, r);
  }

  lemma CombinesOnce(op: string, a: int, b: int, o: Outcome, p: Outcome)
    requires Combines(op, a, b, o) && Combines(op, a, b, p)
    ensures o == p
  {
    if op == "/" {
      if b != 0 {
        QuotientOnce(o.v, p.v, a, b);
      }
    } else if op == "%" {
      if b != 0 {
        RemainderOnce(o.v, p.v, a, b);
      }
    } else if op == "*" || op == "+" || op == "-" {
      WrappedOnce(o.v, p.v, if op == "*" then a * b else if op == "+" then a + b else a - b);
    }
  }

  ghost predicate Changes(op: string, a: int, v: int) {
    if op == "!" then v == (if a == 0 then 1 else 0)
    else if op == "+" then v == a
    else op == "-" && IsWrapped(v, -a)
  }

  // ---------------------------------------------------------------- names

  /** The blanks Go trims, of the characters below 128. */
  predicate IsPad(c: char) {
    c == ' ' || c == '\t' || c == '\n' || c == '\r' || c == '\U{0B}' || c == '\U{0C}'
  }

  predicate IsPadding(s: string) {
    forall k {:trigger s[k]} :: 0 <= k < |s| ==> IsPad(s[k])
  }

  function Signed(sign: string, n: int): int {
    if sign == "-" then -n else n
  }

  ghost predicate IsSpelling(text: string, v: int, left: string, sign: string, digits: string, right: string) {
    && text == left + (sign + digits) + right && IsPadding(left) && IsPadding(right)
    && (sign == "" || sign == "+" || sign == "-") && digits != "" && IsDigits(digits)
    && v == Signed(sign, NumberOf(digits))
  }

  /** The text is a number in decimal, with a sign or none, blanks around it. */
  ghost predicate Spells(text: string, v: int) {
    exists left: string, sign: string, digits: string, right: string ::
      IsSpelling(text, v, left, sign, digits, right)
  }

  /** A name stands for the number its macro spells if that is in range, for 1 if the macro holds any other text, for 0
      if it holds none or there is no macro. */
  ghost predicate Stands(macros: Macros, name: string, v: int) {
    if name !in macros then v == 0
    else if exists n :: InRange(n) && Spells(macros[name], n) then InRange(v) && Spells(macros[name], v)
    else v == if macros[name] == "" then 0 else 1
  }

  lemma {:induction false} TrimLeftPads(left: string, text: string)
    requires IsPadding(left) && (text != "" ==> !IsTrimmed(text[0]))
    ensures TrimLeft(left + text) == text
    decreases |left|
  {
    if left == "" {
      assert left + text == text;
    } else {
      assert (left + text)[0] == left[0] && (left + text)[1..] == left[1..] + text;
      TrimLeftPads(left[1..], text);
    }
  }

  lemma {:induction false} TrimRightPads(text: string, right: string)
    requires IsPadding(right) && (text != "" ==> !IsTrimmed(text[|text| - 1]))
    ensures TrimRight(text + right) == text
    decreases |right|
  {
    if right == "" {
      assert text + right == text;
    } else {
      var n := |right| - 1;
      assert (text + right)[|text| + n] == right[n] && (text + right)[..|text| + n] == text + right[..n];
      TrimRightPads(text, right[..n]);
    }
  }

  lemma TrimPads(left: string, text: string, right: string)
    requires IsPadding(left) && IsPadding(right)
    requires text != "" && !IsTrimmed(text[0]) && !IsTrimmed(text[|text| - 1])
    ensures TrimSpace(left + text + right) == text
  {
    assert left + text + right == left + (text + right);
    TrimLeftPads(left, text + right);
    TrimRightPads(text, right);
  }

  lemma {:induction false} TrimLeftParts(text: string) returns (left: string)
    ensures IsPadding(left) && text == left + TrimLeft(text)
    decreases |text|
  {
    if text != "" && IsTrimmed(text[0]) {
      var rest := TrimLeftParts(text[1..]);
      left := [text[0]] + rest;
      assert text == [text[0]] + text[1..];
    } else {
      left := "";
    }
  }

  lemma {:induction false} TrimRightParts(text: string) returns (right: string)
    ensures IsPadding(right) && text == TrimRight(text) + right
    decreases |text|
  {
    if text != "" && IsTrimmed(text[|text| - 1]) {
      var n := |text| - 1;
      var rest := TrimRightParts(text[..n]);
      right := rest + [text[n]];
      assert text == text[..n] + [text[n]];
    } else {
      right := "";
    }
  }

  lemma DigitsAreAll(digits: string)
    ensures digits != "" && IsDigits(digits) <==> AllDigits(digits)
  {
    assert AllDigits(digits) ==> forall k {:trigger digits[k]} :: 0 <= k < |digits| ==> IsDigit(digits[k]);
    assert IsDigits(digits) ==> forall k {:trigger digits[k]} :: 0 <= k < |digits| ==> IsDigit(digits[k]);
  }

  lemma AtoiOfDigits(s: string, sign: string, digits: string)
    requires s == sign + digits && (sign == "" || sign == "+" || sign == "-") && digits != "" && IsDigits(digits)
    ensures AllDigits(digits)
    ensures Atoi(s) ==
      if sign == "-" then
        if Decimal(digits) > LIMIT then (-LIMIT, false) else (-(Decimal(digits) as int), true)
      else if Decimal(digits) >= LIMIT then (LIMIT - 1, false) else (Decimal(digits), true)
  {
    DigitsAreAll(digits);
    assert '0' <= digits[0] <= '9';
    if sign == "" {
      assert s == digits;
    } else {
      assert s[0] == sign[0] && s[1..] == digits;
    }
  }

  lemma AtoiOfNumber(s: string, sign: string, digits: string)
    requires s == sign + digits && (sign == "" || sign == "+" || sign == "-") && digits != "" && IsDigits(digits)
    ensures var v := Signed(sign, NumberOf(digits)); Atoi(s).1 == InRange(v) && (InRange(v) ==> Atoi(s).0 == v)
  {
    AtoiOfDigits(s, sign, digits);
    DecimalIs(digits);
  }

  lemma NumberIsBare(number: string, sign: string, digits: string)
    requires number == sign + digits && (sign == "" || sign == "+" || sign == "-") && digits != "" && IsDigits(digits)
    ensures number != "" && !IsTrimmed(number[0]) && !IsTrimmed(number[|number| - 1])
  {
    assert number[|number| - 1] == digits[|digits| - 1] && '0' <= digits[|digits| - 1] <= '9';
    assert number[0] == if sign == "" then digits[0] else sign[0];
    assert '0' <= digits[0] <= '9';
  }

  /** What the evaluator reads out of a macro is what the text spells. */
  lemma SpelledIsRead(text: string, v: int)
    requires Spells(text, v)
    ensures Atoi(TrimSpace(text)).1 == InRange(v) && (InRange(v) ==> Atoi(TrimSpace(text)).0 == v)
  {
    var left: string, sign: string, digits: string, right: string :| IsSpelling(text, v, left, sign, digits, right);
    NumberIsBare(sign + digits, sign, digits);
    TrimPads(left, sign + digits, right);
    AtoiOfNumber(sign + digits, sign, digits);
  }

  lemma SignOf(s: string) returns (sign: string, digits: string)
    requires Atoi(s).1
    ensures s == sign + digits && (sign == "" || sign == "+" || sign == "-") && digits != "" && IsDigits(digits)
  {
    sign, digits := "", s;
    if s != "" && (s[0] == '-' || s[0] == '+') {
      sign, digits := s[..1], s[1..];
      assert s == [s[0]] + s[1..];
    }
    DigitsAreAll(digits);
  }

  /** A text that the evaluator reads as a number spells it. */
  lemma ReadIsSpelled(text: string)
    requires Atoi(TrimSpace(text)).1
    ensures InRange(Atoi(TrimSpace(text)).0) && Spells(text, Atoi(TrimSpace(text)).0)
  {
    var left := TrimLeftParts(text);
    var right := TrimRightParts(TrimLeft(text));
    var s := TrimSpace(text);
    assert text == left + s + right;
    var sign, digits := SignOf(s);
    AtoiOfNumber(s, sign, digits);
    assert IsSpelling(text, Atoi(s).0, left, sign, digits, right);
  }

  lemma NameStands(macros: Macros, name: string)
    ensures Stands(macros, name, NameValue(macros, name))
  {
    if name in macros {
      var text := macros[name];
      if n :| InRange(n) && Spells(text, n) {
        SpelledIsRead(text, n);
        ReadIsSpelled(text);
      } else if Atoi(TrimSpace(text)).1 {
        ReadIsSpelled(text);
        assert false;
      }
    }
  }

  lemma StandsOnce(macros: Macros, name: string, v: int, w: int)
    requires Stands(macros, name, v) && Stands(macros, name, w)
    ensures v == w
  {
    if name in macros && exists n :: InRange(n) && Spells(macros[name], n) {
      SpelledIsRead(macros[name], v);
      SpelledIsRead(macros[name], w);
    }
  }

  // ---------------------------------------------------------------- trees

  /** The tree has this value; a zero divisor anywhere in it is a panic. */
  ghost predicate Means(e: Expr, macros: Macros, o: Outcome)
    requires WellFormed(e)
  {
    match e
    case Num(digits) =>
      o == Value(if NumberOf(digits) <= 0x7fff_ffff_ffff_ffff then NumberOf(digits) else 0x7fff_ffff_ffff_ffff)
    case Name(name) => o.Value? && Stands(macros, name, o.v)
    case Defined(name) => o == Says(name in macros)
    case Unary(op, a) => exists x :: Means(a, macros, x) && Unary1(op, x, o)
    case Binary(op, a, b) => exists x, y :: Means(a, macros, x) && Means(b, macros, y) && Binary2(op, x, y, o)
  }

  ghost predicate Unary1(op: string, x: Outcome, o: Outcome) {
    if x == Panic then o == Panic else o.Value? && Changes(op, x.v, o.v)
  }

  ghost predicate Binary2(op: string, x: Outcome, y: Outcome, o: Outcome) {
    if x == Panic || y == Panic then o == Panic else Combines(op, x.v, y.v, o)
  }

  lemma ComputedUnary(op: string, x: Outcome)
    requires op == "!" || op == "+" || op == "-"
    ensures Unary1(op, x, Computed1(op, x))
  {
    if x.Value? {
      WrapIsWrapped(-x.v);
    }
  }

  lemma ComputedBinary(op: string, x: Outcome, y: Outcome)
    requires LevelOf(op) > 0
    ensures Binary2(op, x, y, Computed2(op, x, y))
  {
    if x.Value? && y.Value? {
      ApplyCombines(op, x.v, y.v);
    }
  }

  /** The evaluator computes a value of the tree. */
  lemma {:induction false} ComputedMeans(e: Expr, macros: Macros)
    requires WellFormed(e)
    ensures Means(e, macros, Computed(e, macros))
  {
    match e
    case Num(digits) => DecimalIs(digits);
    case Name(name) => NameStands(macros, name);
    case Defined(_) =>
    case Unary(op, a) =>
      ComputedMeans(a, macros);
      ComputedUnary(op, Computed(a, macros));
    case Binary(op, a, b) =>
      ComputedMeans(a, macros);
      ComputedMeans(b, macros);
      ComputedBinary(op, Computed(a, macros), Computed(b, macros));
  }

  /** There is no other. */
  lemma {:induction false} MeansOnce(e: Expr, macros: Macros, o: Outcome, p: Outcome)
    requires WellFormed(e) && Means(e, macros, o) && Means(e, macros, p)
    ensures o == p
  {
    match e
    case Num(_) =>
    case Name(name) => StandsOnce(macros, name, o.v, p.v);
    case Defined(_) =>
    case Unary(op, a) =>
      var x :| Means(a, macros, x) && Unary1(op, x, o);
      var y :| Means(a, macros, y) && Unary1(op, y, p);
      MeansOnce(a, macros, x, y);
      UnaryOnce(op, x, o, p);
    case Binary(op, a, b) =>
      var x, y :| Means(a, macros, x) && Means(b, macros, y) && Binary2(op, x, y, o);
      var u, v :| Means(a, macros, u) && Means(b, macros, v) && Binary2(op, u, v, p);
      MeansOnce(a, macros, x, u);
      MeansOnce(b, macros, y, v);
      BinaryOnce(op, x, y, o, p);
  }

  lemma UnaryOnce(op: string, x: Outcome, o: Outcome, p: Outcome)
    requires Unary1(op, x, o) && Unary1(op, x, p)
    ensures o == p
  {
    if x.Value? && op == "-" {
      WrappedOnce(o.v, p.v, -x.v);
    }
  }

  lemma BinaryOnce(op: string, x: Outcome, y: Outcome, o: Outcome, p: Outcome)
    requires Binary2(op, x, y, o) && Binary2(op, x, y, p)
    ensures o == p
  {
    if x.Value? && y.Value? {
      CombinesOnce(op, x.v, y.v, o, p);
    }
  }

  /** The value of a tree. */
  ghost function ValueOf(e: Expr, macros: Macros): (o: Outcome)
    requires WellFormed(e)
    ensures Means(e, macros, o)
  {
    ComputedMeans(e, macros);
    var o :| Means(e, macros, o);
    o
  }

  lemma ValueIsComputed(e: Expr, macros: Macros)
    requires WellFormed(e)
    ensures Computed(e, macros) == ValueOf(e, macros)
  {
    ComputedMeans(e, macros);
    MeansOnce(e, macros, Computed(e, macros), ValueOf(e, macros));
  }

  /** The evaluator consumes all tokens of a written tree and gives its value. */
  lemma TokensMeanTree(e: Expr, macros: Macros)
    requires WellFormed(e)
    ensures ParseTokens(Print(e, 5), macros) == ValueOf(e, macros)
    ensures LevelAt(Print(e, 5), macros, 0, 5) ==
      match ValueOf(e, macros)
      case Panic => DivideByZero
      case Value(v) => Parsed(v, |Print(e, 5)|)
  {
    TokensCompute(e, macros);
    ValueIsComputed(e, macros);
  }

  /** From text to value: what `#if` makes of a written tree, laid out in any way, is the value of the tree. */
  lemma TextMeansTree(e: Expr, macros: Macros, indent: string, gaps: seq<string>)
    requires WellFormed(e) && IsBlank(indent) && IsLayout(Print(e, 5), gaps)
    ensures Evaluate(indent + Laid(Print(e, 5), gaps, 0), macros) == ValueOf(e, macros)
  {
    TextComputes(e, macros, indent, gaps);
    ValueIsComputed(e, macros);
  }
}
