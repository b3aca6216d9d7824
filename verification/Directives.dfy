/** How directives are written: every keyword spelled out, arguments behind a blank. The preprocessor reads each as what
    it is, whatever blanks are around it. */
module Directives {
  import opened Expression
  import opened ExpressionMeaning
  import opened Preprocessor

  /** A word without blanks. */
  predicate IsWord(s: string) {
    s != "" && forall k {:trigger s[k]} :: 0 <= k < |s| ==> !IsPad(s[k])
  }

  /** A text that neither begins nor ends with a blank. */
  predicate IsTight(s: string) {
    s != "" && !IsPad(s[0]) && !IsPad(s[|s| - 1])
  }

  /** A keyword and its argument. */
  function Behind(keyword: string, argument: string): string {
    keyword + (" " + argument)
  }

  function Write(d: Directive): string {
    match d
    case Blank => ""
    case Text(line) => line
    case Define(name, body, _) => Behind("#define", if body == "" then name else Behind(name, body))
    case Undef(name, _) => Behind("#undef", name)
    case System(line) => line
    case Include(path) => Behind("#include", "\"" + path + "\"")
    case ErrorLine => "#error"
    case Other(line) => line
    case Nothing => "#pragma"
    case IfDef(name) => Behind("#ifdef", name)
    case IfNotDef(name) => Behind("#ifndef", name)
    case If(condition) => Behind("#if", condition)
    case Elif(condition) => Behind("#elif", condition)
    case BareElif => "#elif"
    case Else => "#else"
    case EndIf => "#endif"
  }

  predicate AreWords(words: seq<string>) {
    words != [] && forall k {:trigger words[k]} :: 0 <= k < |words| ==> IsWord(words[k])
  }

  /** Words joined by single blanks. */
  ghost predicate IsPhrase(s: string) {
    exists words: seq<string> :: AreWords(words) && s == JoinBlank(words)
  }

  /** A line of the preprocessor with none of its keywords. */
  predicate IsUnknown(line: string) {
    && IsTight(line) && line[0] == '#'
    && !("#define " <= line) && !("#undef " <= line) && !("#include" <= line) && !("#if" <= line) && !("#elif" <= line)
    && !("#else" <= line) && !("#endif" <= line) && !("#error" <= line) && !("#pragma" <= line)
  }

  predicate IsSystem(line: string, path: string) {
    IsWord(path) && line == Behind("#include", "<" + path + ">")
  }

  ghost predicate IsWritten(d: Directive) {
    match d
    case Blank => true
    case Text(line) => IsTight(line) && line[0] != '#'
    case Define(name, body, line) => IsWord(name) && (body == "" || IsTight(body)) && line == Write(d)
    case Undef(name, line) => IsWord(name) && line == Write(d)
    case System(line) => exists path: string :: IsSystem(line, path)
    case Include(path) => IsWord(path) && path[0] !in "\"<>" && path[|path| - 1] !in "\"<>"
    case Other(line) => IsUnknown(line)
    case IfDef(name) => IsWord(name)
    case IfNotDef(name) => IsWord(name)
    case If(condition) => IsPhrase(condition)
    case Elif(condition) => IsPhrase(condition)
    case _ => true
  }

  // ---------------------------------------------------------------- words

  lemma {:induction false} WordEndIs(s: string, from: nat, e: nat)
    requires from <= e <= |s| && (e < |s| ==> IsTrimmed(s[e]))
    requires forall k {:trigger s[k]} :: from <= k < e ==> !IsTrimmed(s[k])
    ensures WordEnd(s, from) == e
    decreases e - from
  {
    if from < e {
      WordEndIs(s, from + 1, e);
    }
  }

  lemma OneField(w: string)
    requires IsWord(w)
    ensures Fields(w) == [w]
  {
    assert !IsTrimmed(w[0]);
    WordEndIs(w, 0, |w|);
    assert w[..|w|] == w && w[|w|..] == "";
    assert Fields("") == [];
  }

  lemma BlankBefore(rest: string)
    ensures Fields(" " + rest) == Fields(rest)
  {
    assert (" " + rest)[0] == ' ' && (" " + rest)[1..] == rest;
    assert TrimLeft(" " + rest) == TrimLeft(rest);
  }

  lemma FirstField(w: string, rest: string)
    requires IsWord(w)
    ensures Fields(w + (" " + rest)) == [w] + Fields(rest)
  {
    var s := w + (" " + rest);
    assert forall k {:trigger s[k]} :: 0 <= k < |w| ==> s[k] == w[k];
    assert !IsTrimmed(w[0]) && s[0] == w[0];
    assert s[|w|] == ' ';
    WordEndIs(s, 0, |w|);
    assert s[..|w|] == w && s[|w|..] == " " + rest;
    BlankBefore(rest);
  }

  lemma {:induction false} FieldsOfPhrase(words: seq<string>)
    requires AreWords(words)
    ensures Fields(JoinBlank(words)) == words
  {
    assert IsWord(words[0]);
    if |words| == 1 {
      OneField(words[0]);
    } else {
      var rest := words[1..];
      assert forall k {:trigger rest[k]} :: 0 <= k < |rest| ==> rest[k] == words[k + 1];
      FieldsOfPhrase(rest);
      FirstField(words[0], JoinBlank(rest));
      assert words[0] + " " + JoinBlank(rest) == words[0] + (" " + JoinBlank(rest));
      assert words == [words[0]] + rest;
    }
  }

  lemma {:induction false} PhraseIsTight(words: seq<string>)
    requires AreWords(words)
    ensures IsTight(JoinBlank(words))
  {
    var first := words[0];
    assert IsWord(first) && !IsPad(first[0]) && !IsPad(first[|first| - 1]);
    if |words| > 1 {
      var rest := words[1..];
      assert forall k {:trigger rest[k]} :: 0 <= k < |rest| ==> rest[k] == words[k + 1];
      PhraseIsTight(rest);
      var s := JoinBlank(words);
      assert s == first + " " + JoinBlank(rest);
      assert s[0] == first[0] && s[|s| - 1] == JoinBlank(rest)[|JoinBlank(rest)| - 1];
    }
  }

  // ---------------------------------------------------------------- keywords

  lemma NotPrefix(s: string, p: string, k: nat)
    requires k < |p| && (k < |s| ==> s[k] != p[k])
    ensures !HasPrefix(s, p)
  {
  }

  lemma KeywordIs(keyword: string, argument: string)
    ensures var line := Behind(keyword, argument);
      && HasPrefix(line, keyword) && HasPrefix(line, keyword + " ")
      && (forall k {:trigger line[k]} :: 0 <= k < |keyword| ==> line[k] == keyword[k])
      && |line| > |keyword| && line[|keyword|] == ' '
  {
    assert Behind(keyword, argument)[..|keyword| + 1] == keyword + " ";
  }

  /** The keywords no conditional begins with. */
  ghost predicate NoPlain(line: string) {
    !HasPrefix(line, "#define ") && !HasPrefix(line, "#undef ") && !HasPrefix(line, "#include")
  }

  ghost predicate NoOpening(line: string) {
    NoPlain(line) && !HasPrefix(line, "#ifdef") && !HasPrefix(line, "#ifndef") && !HasPrefix(line, "#if")
  }

  lemma StartsIf(line: string)
    requires |line| >= 4 && line[1] == 'i' && line[2] == 'f'
    ensures NoPlain(line)
    ensures line[3] != 'd' ==> !HasPrefix(line, "#ifdef")
    ensures line[3] != 'n' ==> !HasPrefix(line, "#ifndef")
  {
    NotPrefix(line, "#define ", 1);
    NotPrefix(line, "#undef ", 1);
    NotPrefix(line, "#include", 2);
    if line[3] != 'd' {
      NotPrefix(line, "#ifdef", 3);
    }
    if line[3] != 'n' {
      NotPrefix(line, "#ifndef", 3);
    }
  }

  lemma StartsOther(line: string)
    requires |line| >= 2 && line[1] != 'i' && line[1] != 'd' && line[1] != 'u'
    ensures NoOpening(line)
  {
    NotPrefix(line, "#define ", 1);
    NotPrefix(line, "#undef ", 1);
    NotPrefix(line, "#include", 1);
    NotPrefix(line, "#ifdef", 1);
    NotPrefix(line, "#ifndef", 1);
    NotPrefix(line, "#if", 1);
  }

  lemma ParseOpening(line: string, parts: seq<string>)
    requires NoPlain(line) && |parts| >= 2
    ensures HasPrefix(line, "#ifdef") ==> Parse(line, parts) == IfDef(parts[1])
    ensures !HasPrefix(line, "#ifdef") && HasPrefix(line, "#ifndef") ==> Parse(line, parts) == IfNotDef(parts[1])
    ensures !HasPrefix(line, "#ifdef") && !HasPrefix(line, "#ifndef") && HasPrefix(line, "#if") ==>
      Parse(line, parts) == If(JoinBlank(parts[1..]))
  {
  }

  lemma ParseBranching(line: string, parts: seq<string>)
    requires NoOpening(line)
    ensures HasPrefix(line, "#elif") ==>
      Parse(line, parts) == if |parts| >= 2 then Elif(JoinBlank(parts[1..])) else BareElif
    ensures !HasPrefix(line, "#elif") && HasPrefix(line, "#else") ==> Parse(line, parts) == Else
    ensures !HasPrefix(line, "#elif") && !HasPrefix(line, "#else") && HasPrefix(line, "#endif") ==>
      Parse(line, parts) == EndIf
  {
  }

  lemma ParseRest(line: string, parts: seq<string>)
    requires NoOpening(line)
    requires !HasPrefix(line, "#elif") && !HasPrefix(line, "#else") && !HasPrefix(line, "#endif")
    ensures HasPrefix(line, "#error") ==> Parse(line, parts) == ErrorLine
    ensures !HasPrefix(line, "#error") && HasPrefix(line, "#pragma") ==> Parse(line, parts) == Nothing
    ensures !HasPrefix(line, "#error") && !HasPrefix(line, "#pragma") ==> Parse(line, parts) == Other(line)
  {
  }

  lemma TwoFields(keyword: string, name: string)
    requires IsWord(keyword) && IsWord(name)
    ensures |Fields(Behind(keyword, name))| == 2 && Fields(Behind(keyword, name))[1] == name
  {
    FirstField(keyword, name);
    OneField(name);
  }

  lemma ParseIfDef(name: string)
    requires IsWord(name)
    ensures Parse(Behind("#ifdef", name), Fields(Behind("#ifdef", name))) == IfDef(name)
  {
    var line := Behind("#ifdef", name);
    TwoFields("#ifdef", name);
    KeywordIs("#ifdef", name);
    StartsIf(line);
    ParseOpening(line, Fields(line));
  }

  lemma ParseIfNotDef(name: string)
    requires IsWord(name)
    ensures Parse(Behind("#ifndef", name), Fields(Behind("#ifndef", name))) == IfNotDef(name)
  {
    var line := Behind("#ifndef", name);
    TwoFields("#ifndef", name);
    KeywordIs("#ifndef", name);
    StartsIf(line);
    ParseOpening(line, Fields(line));
  }

  lemma PhraseFields(keyword: string, words: seq<string>)
    requires IsWord(keyword) && AreWords(words)
    ensures var parts := Fields(Behind(keyword, JoinBlank(words)));
      |parts| >= 2 && JoinBlank(parts[1..]) == JoinBlank(words)
  {
    FirstField(keyword, JoinBlank(words));
    FieldsOfPhrase(words);
    assert ([keyword] + words)[1..] == words;
  }

  lemma ParseIf(words: seq<string>)
    requires AreWords(words)
    ensures var line := Behind("#if", JoinBlank(words)); Parse(line, Fields(line)) == If(JoinBlank(words))
  {
    var line := Behind("#if", JoinBlank(words));
    PhraseFields("#if", words);
    KeywordIs("#if", JoinBlank(words));
    StartsIf(line);
    ParseOpening(line, Fields(line));
  }

  lemma ParseElif(words: seq<string>)
    requires AreWords(words)
    ensures var line := Behind("#elif", JoinBlank(words)); Parse(line, Fields(line)) == Elif(JoinBlank(words))
  {
    var line := Behind("#elif", JoinBlank(words));
    PhraseFields("#elif", words);
    KeywordIs("#elif", JoinBlank(words));
    StartsOther(line);
    ParseBranching(line, Fields(line));
  }

  lemma ParseBareElif()
    ensures Parse("#elif", Fields("#elif")) == BareElif
  {
    OneField("#elif");
    StartsOther("#elif");
    ParseBranching("#elif", Fields("#elif"));
  }

  lemma ParseElse()
    ensures Parse("#else", Fields("#else")) == Else
  {
    NotPrefix("#else", "#elif", 3);
    StartsOther("#else");
    ParseBranching("#else", Fields("#else"));
  }

  lemma ParseEndIf()
    ensures Parse("#endif", Fields("#endif")) == EndIf
  {
    NotPrefix("#endif", "#elif", 2);
    NotPrefix("#endif", "#else", 2);
    StartsOther("#endif");
    ParseBranching("#endif", Fields("#endif"));
  }

  lemma ParseAlone()
    ensures Parse("#error", Fields("#error")) == ErrorLine
    ensures Parse("#pragma", Fields("#pragma")) == Nothing
  {
    NotPrefix("#error", "#elif", 2);
    NotPrefix("#error", "#else", 2);
    NotPrefix("#error", "#endif", 2);
    StartsOther("#error");
    ParseRest("#error", Fields("#error"));
    NotPrefix("#pragma", "#elif", 1);
    NotPrefix("#pragma", "#else", 1);
    NotPrefix("#pragma", "#endif", 1);
    NotPrefix("#pragma", "#error", 1);
    StartsOther("#pragma");
    ParseRest("#pragma", Fields("#pragma"));
  }

  lemma TightTrims(s: string)
    requires s == "" || IsTight(s)
    ensures TrimSpace(" " + s) == s && TrimSpace(s) == s
  {
    if s == "" {
      OnlyPadding(" " + s);
      OnlyPadding(s);
    } else {
      assert " " + s + "" == " " + s && "" + s + "" == s;
      TrimPads(" ", s, "");
      TrimPads("", s, "");
    }
  }

  lemma DefineFields(name: string, body: string)
    requires IsWord(name) && (body == "" || IsTight(body))
    ensures var parts := Fields(Write(Define(name, body, ""))); |parts| >= 2 && parts[1] == name
  {
    if body == "" {
      TwoFields("#define", name);
    } else {
      FirstField("#define", Behind(name, body));
      FirstField(name, body);
    }
  }

  lemma ParseAsDefine(line: string, parts: seq<string>)
    requires HasPrefix(line, "#define ") && |parts| >= 2
    ensures Parse(line, parts) == Define(parts[1], TrimSpace(TrimPrefix(line, "#define " + parts[1])), line)
  {
  }

  lemma DefineBody(name: string, body: string)
    requires body == "" || IsTight(body)
    ensures TrimSpace(TrimPrefix(Write(Define(name, body, "")), "#define " + name)) == body
  {
    var line := Write(Define(name, body, ""));
    var prefix, tail := "#define " + name, if body == "" then "" else " " + body;
    assert "#define" + " " == "#define ";
    assert line == prefix + tail;
    assert line[..|prefix|] == prefix && line[|prefix|..] == tail;
    TightTrims(body);
  }

  lemma ParseDefine(name: string, body: string)
    requires IsWord(name) && (body == "" || IsTight(body))
    ensures var line := Write(Define(name, body, "")); Parse(line, Fields(line)) == Define(name, body, line)
  {
    var line := Write(Define(name, body, ""));
    DefineFields(name, body);
    KeywordIs("#define", if body == "" then name else Behind(name, body));
    assert "#define" + " " == "#define ";
    ParseAsDefine(line, Fields(line));
    DefineBody(name, body);
  }

  lemma ParseUndef(name: string)
    requires IsWord(name)
    ensures var line := Behind("#undef", name); Parse(line, Fields(line)) == Undef(name, line)
  {
    var line := Behind("#undef", name);
    TwoFields("#undef", name);
    KeywordIs("#undef", name);
    assert "#undef" + " " == "#undef ";
    NotPrefix(line, "#define ", 1);
  }

  lemma IncludeFields(target: string)
    requires IsWord(target)
    ensures var line := Behind("#include", target); Parse(line, Fields(line)) == ParseInclude(line, target)
  {
    var line := Behind("#include", target);
    TwoFields("#include", target);
    KeywordIs("#include", target);
    NotPrefix(line, "#define ", 1);
    NotPrefix(line, "#undef ", 1);
  }

  lemma {:induction false} TrimSetKeeps(s: string, cut: string)
    requires s != "" && s[0] !in cut && s[|s| - 1] !in cut
    ensures TrimSet(s, cut) == s
  {
    assert TrimSetLeft(s, cut) == s;
  }

  lemma TrimQuotes(path: string)
    requires path != "" && path[0] !in "\"" && path[|path| - 1] !in "\""
    ensures TrimSet("\"" + path + "\"", "\"") == path
  {
    var cut, s := "\"", "\"" + path + "\"";
    var t := path + "\"";
    assert s[0] in cut && s[1..] == t && t[0] !in cut;
    assert TrimSetLeft(t, cut) == t;
    assert TrimSetLeft(s, cut) == TrimSetLeft(t, cut);
    assert t[|t| - 1] in cut && t[..|t| - 1] == path;
    assert TrimSetRight(path, cut) == path;
  }

  lemma WordsAround(a: string, path: string, b: string)
    requires IsWord(a) && IsWord(path) && IsWord(b)
    ensures IsWord(a + path + b)
  {
    var s := a + path + b;
    forall k {:trigger s[k]} | 0 <= k < |s|
      ensures !IsPad(s[k])
    {
      assert s[k] == if k < |a| then a[k] else if k < |a| + |path| then path[k - |a|] else b[k - |a| - |path|];
    }
  }

  lemma ParseIncluded(path: string)
    requires IsWord(path) && path[0] !in "\"<>" && path[|path| - 1] !in "\"<>"
    ensures var line := Behind("#include", "\"" + path + "\""); Parse(line, Fields(line)) == Include(path)
  {
    var target := "\"" + path + "\"";
    WordsAround("\"", path, "\"");
    IncludeFields(target);
    assert target[0] == '"';
    NotPrefix(target, "<", 0);
    TrimQuotes(path);
    TrimSetKeeps(path, "<>");
  }

  lemma ParseSystem(path: string)
    requires IsWord(path)
    ensures var line := Behind("#include", "<" + path + ">"); Parse(line, Fields(line)) == System(line)
  {
    var target := "<" + path + ">";
    WordsAround("<", path, ">");
    IncludeFields(target);
    assert target[..1] == "<";
  }

  lemma LongerPrefix(line: string, long: string, short: string)
    requires short <= long
    ensures HasPrefix(line, long) ==> short <= line
  {
    if HasPrefix(line, long) {
      assert line[..|long|][..|short|] == line[..|short|];
    }
  }

  lemma ParseUnknown(line: string)
    requires IsUnknown(line)
    ensures Parse(line, Fields(line)) == Other(line)
  {
    LongerPrefix(line, "#ifdef", "#if");
    LongerPrefix(line, "#ifndef", "#if");
    ParseRest(line, Fields(line));
  }

  // ---------------------------------------------------------------- written lines are read

  lemma BehindIsTight(a: string, b: string)
    requires IsTight(a) && IsTight(b)
    ensures IsTight(Behind(a, b)) && Behind(a, b)[0] == a[0]
  {
    var s := Behind(a, b);
    assert s[0] == a[0] && s[|s| - 1] == b[|b| - 1];
  }

  lemma WordBehind(keyword: string, word: string)
    requires IsTight(keyword) && keyword[0] == '#' && IsWord(word)
    ensures IsTight(Behind(keyword, word)) && Behind(keyword, word)[0] == '#'
  {
    BehindIsTight(keyword, word);
  }

  lemma PhraseBehind(keyword: string, phrase: string)
    requires IsTight(keyword) && keyword[0] == '#' && IsPhrase(phrase)
    ensures IsTight(Behind(keyword, phrase)) && Behind(keyword, phrase)[0] == '#'
  {
    var words :| AreWords(words) && phrase == JoinBlank(words);
    PhraseIsTight(words);
    BehindIsTight(keyword, phrase);
  }

  lemma IncludeIsTight(a: string, path: string, b: string)
    requires IsWord(a) && IsWord(path) && IsWord(b)
    ensures var line := Behind("#include", a + path + b); IsTight(line) && line[0] == '#'
  {
    WordsAround(a, path, b);
    WordBehind("#include", a + path + b);
  }

  lemma WrittenIsTight(d: Directive)
    requires IsWritten(d) && !d.Blank? && !d.Text?
    ensures IsTight(Write(d)) && Write(d)[0] == '#'
  {
    match d
    case Define(name, body, _) =>
      if body != "" {
        BehindIsTight(name, body);
      }
      BehindIsTight("#define", if body == "" then name else Behind(name, body));
    case Undef(name, _) => WordBehind("#undef", name);
    case System(line) =>
      var path :| IsSystem(line, path);
      IncludeIsTight("<", path, ">");
    case Include(path) => IncludeIsTight("\"", path, "\"");
    case IfDef(name) => WordBehind("#ifdef", name);
    case IfNotDef(name) => WordBehind("#ifndef", name);
    case If(condition) => PhraseBehind("#if", condition);
    case Elif(condition) => PhraseBehind("#elif", condition);
    case _ =>
  }

  lemma PhraseIsParsed(d: Directive)
    requires (d.If? || d.Elif?) && IsPhrase(d.condition)
    ensures Parse(Write(d), Fields(Write(d))) == d
  {
    var words :| AreWords(words) && d.condition == JoinBlank(words);
    if d.If? {
      ParseIf(words);
    } else {
      ParseElif(words);
    }
  }

  lemma WrittenIsParsed(d: Directive)
    requires IsWritten(d) && !d.Blank? && !d.Text?
    ensures Parse(Write(d), Fields(Write(d))) == d
  {
    match d
    case Define(name, body, _) => ParseDefine(name, body);
    case Undef(name, _) => ParseUndef(name);
    case System(line) =>
      var path :| IsSystem(line, path);
      ParseSystem(path);
    case Include(path) => ParseIncluded(path);
    case Other(line) => ParseUnknown(line);
    case IfDef(name) => ParseIfDef(name);
    case IfNotDef(name) => ParseIfNotDef(name);
    case If(_) => PhraseIsParsed(d);
    case Elif(_) => PhraseIsParsed(d);
    case ErrorLine => ParseAlone();
    case Nothing => ParseAlone();
    case BareElif => ParseBareElif();
    case Else => ParseElse();
    case EndIf => ParseEndIf();
  }

  lemma HashIsPrefix(line: string)
    requires line != ""
    ensures HasPrefix(line, "#") <==> line[0] == '#'
  {
    assert line[..1] == [line[0]];
  }

  /** Whatever blanks stand around it, a written line is read as what it was written for. A line of text keeps its
      blanks. */
  lemma WrittenIsRead(d: Directive, left: string, right: string)
    requires IsWritten(d) && IsPadding(left) && IsPadding(right)
    ensures Classify(left + Write(d) + right) == if d.Text? then Text(left + d.line + right) else d
  {
    var line := Write(d);
    if d.Blank? {
      OnlyPadding(left + line + right);
    } else if d.Text? {
      TrimPads(left, line, right);
      HashIsPrefix(line);
    } else {
      WrittenIsTight(d);
      TrimPads(left, line, right);
      HashIsPrefix(line);
      WrittenIsParsed(d);
    }
  }

  lemma {:induction false} OnlyPadding(s: string)
    requires IsPadding(s)
    ensures TrimSpace(s) == ""
    decreases |s|
  {
    if s != "" {
      OnlyPadding(s[1..]);
    }
  }
}
