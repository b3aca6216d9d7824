/** What nested conditionals mean: of the branches of a group the first true one is read, the others are skipped. The
    flat stack machine of the preprocessor does exactly that. */
module Conditionals {
  import opened Wrappers
  import opened Expression
  import opened Preprocessor
  import L = LineScan

  datatype Block =
    | Done
    | Line(line: string, rest: Block)
    | Group(open: string, first: Block, others: Branches, close: string, rest: Block)

  datatype Branches = NoMore | Branch(head: string, body: Block, more: Branches)

  predicate Nested(b: Block) {
    match b
    case Done => true
    case Line(line, rest) => !IsConditional(Classify(line)) && Nested(rest)
    case Group(open, first, others, close, rest) =>
      IsOpening(Classify(open)) && Nested(first) && NestedBranches(others) && Classify(close).EndIf? && Nested(rest)
  }

  predicate NestedBranches(b: Branches) {
    match b
    case NoMore => true
    case Branch(head, body, more) => IsBranching(Classify(head)) && Nested(body) && NestedBranches(more)
  }

  function Flatten(b: Block): seq<string> {
    match b
    case Done => []
    case Line(line, rest) => [line] + Flatten(rest)
    case Group(open, first, others, close, rest) =>
      [open] + (Flatten(first) + (FlattenBranches(others) + ([close] + Flatten(rest))))
  }

  function FlattenBranches(b: Branches): seq<string> {
    match b
    case NoMore => []
    case Branch(head, body, more) => [head] + (Flatten(body) + FlattenBranches(more))
  }

  // ---------------------------------------------------------------- meaning

  /** Truth of a branch nobody before it has taken. */
  function Takes(macros: Macros, d: Directive): Option<bool>
    requires IsBranching(d)
  {
    match d
    case Elif(condition) => Truthy(condition, macros)
    case BareElif => Some(false)
    case Else => Some(true)
  }

  /** One thing after another, unless the first went wrong. */
  function Join(a: Plain, b: Plain): Plain {
    if a.end.Fine? then b.(out := a.out + b.out) else a
  }

  /** Reads a block, or skips it: then nothing is defined, included or emitted, but the conditions of inner groups are
      evaluated, `#error` still fails and unknown directives are still copied. */
  function Read(env: Env, core: Core, active: bool, b: Block, path: string): Plain
    requires Nested(b)
    decreases b, 1
  {
    match b
    case Done => Plain(core, [], Fine)
    case Line(line, rest) =>
      var now := PlainStep(env, core, active, Classify(line), path);
      Join(now, Read(env, now.core, active, rest, path))
    case Group(open, first, others, close, rest) =>
      var now := ReadGroup(env, core, active, b, path);
      Join(now, Read(env, now.core, active, rest, path))
  }

  function ReadGroup(env: Env, core: Core, active: bool, b: Block, path: string): Plain
    requires b.Group? && Nested(b)
    decreases b, 0
  {
    match Opens(core.macros, Classify(b.open))
    case None => Plain(core, [], Panicked)
    case Some(v) =>
      var now := Read(env, core, active && v, b.first, path);
      Join(now, ReadBranches(env, now.core, active && !v, b.others, path))
  }

  /** The other branches: while none has been taken, the first that is true is. */
  function ReadBranches(env: Env, core: Core, pending: bool, b: Branches, path: string): Plain
    requires NestedBranches(b)
    decreases b
  {
    match b
    case NoMore => Plain(core, [], Fine)
    case Branch(head, body, more) =>
      match if pending then Takes(core.macros, Classify(head)) else Some(false)
      case None => Plain(core, [], Panicked)
      case Some(v) =>
        var now := Read(env, core, v, body, path);
        Join(now, ReadBranches(env, now.core, pending && !v, more, path))
  }

  // ---------------------------------------------------------------- the flat machine agrees

  /** The flat machine after something that means `p`, with `lines` still to read on the stack `conds`. */
  function Onward(env: Env, p: Plain, conds: seq<Cond>, lines: seq<string>, path: string): After {
    if p.end.Fine? then Emit(p.out, LinesStep(env, p.core, conds, lines, path)) else After(p.core, [], p.out, p.end)
  }

  ghost predicate GoodTop(conds: seq<Cond>) {
    conds == [] || (var c := conds[|conds| - 1]; (c.active ==> c.branchTaken) && (c.branchTaken ==> c.parentActive))
  }

  lemma OnwardTwice(env: Env, a: Plain, b: Plain, conds: seq<Cond>, lines: seq<string>, path: string)
    requires a.end.Fine?
    ensures Emit(a.out, Onward(env, b, conds, lines, path)) == Onward(env, Join(a, b), conds, lines, path)
  {
    if b.end.Fine? {
      var r := LinesStep(env, b.core, conds, lines, path);
      assert a.out + (b.out + r.out) == (a.out + b.out) + r.out;
    }
  }

  lemma FirstLine(env: Env, core: Core, conds: seq<Cond>, line: string, lines: seq<string>, path: string)
    ensures var first := LineStep(env, core, conds, Classify(line), path);
      LinesStep(env, core, conds, [line] + lines, path) ==
      if first.end.Fine? then Emit(first.out, LinesStep(env, first.core, first.conds, lines, path)) else first
  {
    assert ([line] + lines)[1..] == lines;
  }

  /** From a first part to the whole. */
  lemma Continue(env: Env, now: Plain, later: Plain, conds: seq<Cond>, rest: seq<string>, lines: seq<string>,
                 path: string)
    requires now.end.Fine? ==>
      LinesStep(env, now.core, conds, rest + lines, path) == Onward(env, later, conds, lines, path)
    ensures Onward(env, now, conds, rest + lines, path) == Onward(env, Join(now, later), conds, lines, path)
  {
    if now.end.Fine? {
      OnwardTwice(env, now, later, conds, lines, path);
    }
  }

  lemma PlainLine(env: Env, core: Core, conds: seq<Cond>, line: string, lines: seq<string>, path: string)
    requires !IsConditional(Classify(line))
    ensures LinesStep(env, core, conds, [line] + lines, path) ==
            Onward(env, PlainStep(env, core, ShouldEmit(conds), Classify(line), path), conds, lines, path)
  {
    FirstLine(env, core, conds, line, lines, path);
  }

  lemma NothingLeft(env: Env, core: Core, conds: seq<Cond>, lines: seq<string>, path: string)
    ensures LinesStep(env, core, conds, [] + lines, path) == Onward(env, Plain(core, [], Fine), conds, lines, path)
  {
    assert [] + lines == lines;
    var r := LinesStep(env, core, conds, lines, path);
    assert [] + r.out == r.out;
  }

  lemma FlattenGroup(b: Block, lines: seq<string>)
    requires b.Group?
    ensures Flatten(b) + lines ==
      [b.open] + (Flatten(b.first) + (FlattenBranches(b.others) + ([b.close] + (Flatten(b.rest) + lines))))
  {
  }

  lemma {:induction false} FlatIsNested(env: Env, core: Core, conds: seq<Cond>, b: Block, lines: seq<string>,
                                        path: string)
    requires Nested(b) && GoodTop(conds)
    ensures LinesStep(env, core, conds, Flatten(b) + lines, path) ==
            Onward(env, Read(env, core, ShouldEmit(conds), b, path), conds, lines, path)
    decreases b, 1
  {
    if b.Done? {
      NothingLeft(env, core, conds, lines, path);
    } else {
      var active := ShouldEmit(conds);
      var after := Flatten(b.rest) + lines;
      var now;
      if b.Line? {
        now := PlainStep(env, core, active, Classify(b.line), path);
        assert Flatten(b) + lines == [b.line] + after;
        PlainLine(env, core, conds, b.line, after, path);
      } else {
        now := ReadGroup(env, core, active, b, path);
        FlattenGroup(b, lines);
        FlatIsGroup(env, core, conds, b, after, path);
      }
      if now.end.Fine? {
        FlatIsNested(env, now.core, conds, b.rest, lines, path);
      }
      Continue(env, now, Read(env, now.core, active, b.rest, path), conds, Flatten(b.rest), lines, path);
    }
  }

  lemma {:induction false} FlatIsGroup(env: Env, core: Core, conds: seq<Cond>, b: Block, lines: seq<string>,
                                       path: string)
    requires b.Group? && Nested(b) && GoodTop(conds)
    ensures LinesStep(env, core, conds,
                      [b.open] + (Flatten(b.first) + (FlattenBranches(b.others) + ([b.close] + lines))), path) ==
            Onward(env, ReadGroup(env, core, ShouldEmit(conds), b, path), conds, lines, path)
    decreases b, 0
  {
    var active := ShouldEmit(conds);
    var after := FlattenBranches(b.others) + ([b.close] + lines);
    FirstLine(env, core, conds, b.open, Flatten(b.first) + after, path);
    match Opens(core.macros, Classify(b.open))
    case None =>
    case Some(v) =>
      var top := Cond(active && v, active && v, active);
      var next := conds + [top];
      assert ParentActive(conds) == active;
      assert LineStep(env, core, conds, Classify(b.open), path) == After(core, next, [], Fine);
      FlatIsNested(env, core, next, b.first, after, path);
      var now := Read(env, core, active && v, b.first, path);
      var flat := LinesStep(env, core, next, Flatten(b.first) + after, path);
      assert [] + flat.out == flat.out;
      if now.end.Fine? {
        assert next[..|next| - 1] == conds;
        FlatIsBranches(env, now.core, next, b.others, b.close, lines, path);
        OnwardTwice(env, now, ReadBranches(env, now.core, active && !v, b.others, path), conds, lines, path);
      }
  }

  /** One head of a branch on the stack: whether the branch is read. */
  lemma HeadStep(env: Env, core: Core, conds: seq<Cond>, d: Directive, path: string)
    requires IsBranching(d) && conds != [] && GoodTop(conds)
    ensures var top := conds[|conds| - 1];
      LineStep(env, core, conds, d, path) ==
      match if top.parentActive && !top.branchTaken then Takes(core.macros, d) else Some(false)
      case None => After(core, [], [], Panicked)
      case Some(v) => After(core, Top(conds, Cond(v, top.branchTaken || v, top.parentActive)), [], Fine)
  {
    var top := conds[|conds| - 1];
    assert Top(conds, top) == conds;
  }

  lemma FlattenBranch(head: string, body: Block, more: Branches, lines: seq<string>)
    ensures FlattenBranches(Branch(head, body, more)) + lines ==
            [head] + (Flatten(body) + (FlattenBranches(more) + lines))
  {
  }

  lemma {:induction false} FlatIsBranches(env: Env, core: Core, conds: seq<Cond>, b: Branches, close: string,
                                          lines: seq<string>, path: string)
    requires NestedBranches(b) && Classify(close).EndIf? && conds != [] && GoodTop(conds)
    ensures var top := conds[|conds| - 1];
      LinesStep(env, core, conds, FlattenBranches(b) + ([close] + lines), path) ==
      Onward(env, ReadBranches(env, core, top.parentActive && !top.branchTaken, b, path), conds[..|conds| - 1],
             lines, path)
    decreases b, 1
  {
    if b.NoMore? {
      NothingLeft(env, core, conds, [close] + lines, path);
      FirstLine(env, core, conds, close, lines, path);
    } else {
      var top := conds[|conds| - 1];
      var after := FlattenBranches(b.more) + ([close] + lines);
      FlattenBranch(b.head, b.body, b.more, [close] + lines);
      FirstLine(env, core, conds, b.head, Flatten(b.body) + after, path);
      HeadStep(env, core, conds, Classify(b.head), path);
      match if top.parentActive && !top.branchTaken then Takes(core.macros, Classify(b.head)) else Some(false)
      case None =>
      case Some(v) =>
        var next := Top(conds, Cond(v, top.branchTaken || v, top.parentActive));
        assert next[..|next| - 1] == conds[..|conds| - 1];
        FlatIsBranch(env, core, next, b, close, lines, path);
        NothingEmitted(LinesStep(env, core, next, Flatten(b.body) + after, path));
    }
  }

  lemma NothingEmitted(r: After)
    ensures Emit([], r) == r
  {
    assert [] + r.out == r.out;
  }

  /** The body behind a head, and the branches behind that. */
  lemma {:induction false} FlatIsBranch(env: Env, core: Core, conds: seq<Cond>, b: Branches, close: string,
                                        lines: seq<string>, path: string)
    requires b.Branch? && NestedBranches(b) && Classify(close).EndIf? && conds != [] && GoodTop(conds)
    ensures var top, below := conds[|conds| - 1], conds[..|conds| - 1];
      var now := Read(env, core, ShouldEmit(conds), b.body, path);
      LinesStep(env, core, conds, Flatten(b.body) + (FlattenBranches(b.more) + ([close] + lines)), path) ==
      Onward(env, Join(now, ReadBranches(env, now.core, top.parentActive && !top.branchTaken, b.more, path)),
             below, lines, path)
    decreases b, 0
  {
    var after := FlattenBranches(b.more) + ([close] + lines);
    var top, below := conds[|conds| - 1], conds[..|conds| - 1];
    FlatIsNested(env, core, conds, b.body, after, path);
    var now := Read(env, core, ShouldEmit(conds), b.body, path);
    if now.end.Fine? {
      FlatIsBranches(env, now.core, conds, b.more, close, lines, path);
      OnwardTwice(env, now, ReadBranches(env, now.core, top.parentActive && !top.branchTaken, b.more, path),
                  below, lines, path);
    }
  }

  // ---------------------------------------------------------------- files

  /** A file of properly nested lines does what its tree means, and leaves no conditional open. */
  lemma NestedFile(env: Env, core: Core, source: string, b: Block, path: string)
    requires Nested(b) && L.LinesFrom(source, 0) == Flatten(b)
    ensures var r, p := LinesStep(env, core, [], L.LinesFrom(source, 0), path), Read(env, core, true, b, path);
      r == After(p.core, [], p.out, p.end)
  {
    FlatIsNested(env, core, [], b, [], path);
    assert Flatten(b) + [] == Flatten(b);
    var p := Read(env, core, true, b, path);
    assert p.out + [] == p.out;
  }

  // ---------------------------------------------------------------- the stack

  /** Every group knows whether all groups around it are active, and is active only if they are and its branch is the
      one taken. */
  ghost predicate GoodStack(conds: seq<Cond>) {
    forall k {:trigger conds[k]} :: 0 <= k < |conds| ==>
      && conds[k].parentActive == ParentActive(conds[..k])
      && (conds[k].active ==> conds[k].branchTaken) && (conds[k].branchTaken ==> conds[k].parentActive)
  }

  lemma StackStaysGood(macros: Macros, conds: seq<Cond>, d: Directive)
    requires IsConditional(d) && GoodStack(conds) && CondStep(macros, conds, d).Some?
    ensures GoodStack(CondStep(macros, conds, d).value)
  {
    var next := CondStep(macros, conds, d).value;
    forall k | 0 <= k < |next|
      ensures && next[k].parentActive == ParentActive(next[..k])
              && (next[k].active ==> next[k].branchTaken) && (next[k].branchTaken ==> next[k].parentActive)
    {
      if k < |conds| {
        assert next[..k] == conds[..k];
      } else {
        assert next[..k] == conds;
      }
    }
  }

  lemma LineKeepsStackGood(env: Env, core: Core, conds: seq<Cond>, d: Directive, path: string)
    requires GoodStack(conds)
    ensures var r := LineStep(env, core, conds, d, path); r.end.Fine? ==> GoodStack(r.conds)
  {
    if IsConditional(d) && CondStep(core.macros, conds, d).Some? {
      StackStaysGood(core.macros, conds, d);
    }
  }

  lemma {:induction false} LinesKeepStackGood(env: Env, core: Core, conds: seq<Cond>, lines: seq<string>, path: string)
    requires GoodStack(conds)
    ensures GoodStack(LinesStep(env, core, conds, lines, path).conds)
    decreases |lines|
  {
    if lines != [] {
      var d := Classify(lines[0]);
      var first := LineStep(env, core, conds, d, path);
      if first.end.Fine? {
        LineKeepsStackGood(env, core, conds, d, path);
        LinesKeepStackGood(env, first.core, first.conds, lines[1..], path);
      }
    }
  }

  lemma BelowStaysGood(conds: seq<Cond>, n: nat)
    requires GoodStack(conds) && n <= |conds|
    ensures GoodStack(conds[..n])
  {
    var below := conds[..n];
    forall k {:trigger below[k]} | 0 <= k < n
      ensures && below[k].parentActive == ParentActive(below[..k])
              && (below[k].active ==> below[k].branchTaken) && (below[k].branchTaken ==> below[k].parentActive)
    {
      assert below[k] == conds[k] && below[..k] == conds[..k];
    }
  }

  ghost predicate AllActive(conds: seq<Cond>, n: nat)
    requires n <= |conds|
  {
    forall k {:trigger conds[k]} :: 0 <= k < n ==> conds[k].active
  }

  lemma AllActiveBelow(conds: seq<Cond>, n: nat)
    requires n <= |conds|
    ensures AllActive(conds[..n], n) <==> AllActive(conds, n)
  {
    assert forall k {:trigger conds[k]} :: 0 <= k < n ==> conds[..n][k] == conds[k];
  }

  /** Text is emitted exactly when every enclosing group is active. */
  lemma {:induction false} EmitsIfAllActive(conds: seq<Cond>)
    requires GoodStack(conds)
    ensures ShouldEmit(conds) <==> AllActive(conds, |conds|)
  {
    if conds != [] {
      var n := |conds| - 1;
      BelowStaysGood(conds, n);
      EmitsIfAllActive(conds[..n]);
      AllActiveBelow(conds, n);
      assert conds[n].parentActive == ParentActive(conds[..n]);
      ActiveIsEmitting(conds[..n]);
    }
  }

  lemma ActiveIsEmitting(conds: seq<Cond>)
    requires GoodStack(conds)
    ensures ParentActive(conds) <==> ShouldEmit(conds)
  {
    if conds != [] {
      assert conds[|conds| - 1] in conds;
    }
  }

  // ---------------------------------------------------------------- at most one branch

  /** The stacks before each line and after the last, as long as nothing fails. */
  function Stacks(env: Env, core: Core, conds: seq<Cond>, lines: seq<string>, path: string): (t: seq<seq<Cond>>)
    ensures 0 < |t| <= |lines| + 1 && t[0] == conds
    decreases |lines|
  {
    if lines == [] then [conds]
    else
      var first := LineStep(env, core, conds, Classify(lines[0]), path);
      [conds] + if first.end.Fine? then Stacks(env, first.core, first.conds, lines[1..], path) else []
  }

  /** Line `k` heads a further branch of the group that is the `n`-th from outside. */
  ghost predicate Heads(t: seq<seq<Cond>>, lines: seq<string>, n: nat, k: nat)
    requires k < |t| && k < |lines|
  {
    |t[k]| == n && IsBranching(Classify(lines[k]))
  }

  ghost predicate StaysOpen(t: seq<seq<Cond>>, n: nat, i: nat, j: nat) {
    forall k {:trigger t[k]} :: i <= k <= j && k < |t| ==> |t[k]| >= n
  }

  /** From `i` to `j` the group is active and no line heads a further branch of it. */
  ghost predicate OneBranch(t: seq<seq<Cond>>, lines: seq<string>, n: nat, i: nat, j: nat)
    requires j < |t| <= |lines| + 1 && n > 0 && StaysOpen(t, n, i, j)
  {
    && (forall k {:trigger t[k]} :: i <= k <= j ==> t[k][n - 1].active)
    && (forall k {:trigger Heads(t, lines, n, k)} :: i <= k < j ==> !Heads(t, lines, n, k))
  }

  /** One line: a branch taken stays taken, and the group is active behind the line only if it was before and the line
      heads no further branch of it. */
  lemma TakenStays(env: Env, core: Core, conds: seq<Cond>, d: Directive, path: string, n: nat)
    requires 0 < n <= |conds| && conds[n - 1].branchTaken
    requires var r := LineStep(env, core, conds, d, path); r.end.Fine? && |r.conds| >= n
    ensures var r := LineStep(env, core, conds, d, path);
      && r.conds[n - 1].branchTaken
      && (r.conds[n - 1].active ==> conds[n - 1].active && !(|conds| == n && IsBranching(d)))
  {
  }

  lemma LaterStacks(t: seq<seq<Cond>>, first: seq<Cond>, rest: seq<seq<Cond>>, lines: seq<string>, n: nat, i: nat,
                    j: nat)
    requires t == [first] + rest && 0 < i <= j < |t| <= |lines| + 1 && n > 0
    requires StaysOpen(t, n, i, j) && StaysOpen(rest, n, i - 1, j - 1)
    requires OneBranch(rest, lines[1..], n, i - 1, j - 1)
    ensures OneBranch(t, lines, n, i, j)
  {
    forall k {:trigger t[k]} | i <= k <= j
      ensures t[k][n - 1].active
    {
      assert t[k] == rest[k - 1];
    }
    forall k {:trigger Heads(t, lines, n, k)} | i <= k < j
      ensures !Heads(t, lines, n, k)
    {
      assert t[k] == rest[k - 1] && lines[k] == lines[1..][k - 1];
      assert !Heads(rest, lines[1..], n, k - 1);
    }
  }

  lemma NextStacks(env: Env, core: Core, conds: seq<Cond>, lines: seq<string>, path: string) returns (first: After)
    requires |Stacks(env, core, conds, lines, path)| > 1
    ensures lines != [] && first == LineStep(env, core, conds, Classify(lines[0]), path) && first.end.Fine?
    ensures Stacks(env, core, conds, lines, path) ==
            [conds] + Stacks(env, first.core, first.conds, lines[1..], path)
  {
    first := LineStep(env, core, conds, Classify(lines[0]), path);
  }

  /** The group is open from `i` to `j` and active at `j`. */
  ghost predicate OpenTo(t: seq<seq<Cond>>, n: nat, i: nat, j: nat) {
    n > 0 && i <= j < |t| && StaysOpen(t, n, i, j) && |t[j]| >= n && t[j][n - 1].active
  }

  lemma LaterOpen(t: seq<seq<Cond>>, first: seq<Cond>, rest: seq<seq<Cond>>, n: nat, i: nat, j: nat)
    requires t == [first] + rest && 0 < i <= j && OpenTo(t, n, i, j)
    ensures OpenTo(rest, n, i - 1, j - 1)
  {
    forall k {:trigger rest[k]} | i - 1 <= k <= j - 1 && k < |rest|
      ensures |rest[k]| >= n
    {
      assert t[k + 1] == rest[k];
    }
    assert t[j] == rest[j - 1];
  }

  lemma FromFirst(t: seq<seq<Cond>>, lines: seq<string>, n: nat, j: nat)
    requires 0 < j && OpenTo(t, n, 0, j) && |t| <= |lines| + 1 && OneBranch(t, lines, n, 1, j)
    requires t[0][n - 1].active && !Heads(t, lines, n, 0)
    ensures OneBranch(t, lines, n, 0, j)
  {
  }

  /** If a branch of a group was taken and the group is active `j` lines later, then it has been active all along and no
      line between headed a further branch. */
  lemma {:induction false} ActiveSince(env: Env, core: Core, conds: seq<Cond>, lines: seq<string>, path: string, n: nat,
                                       j: nat)
    requires 0 < n <= |conds| && conds[n - 1].branchTaken && OpenTo(Stacks(env, core, conds, lines, path), n, 0, j)
    ensures OneBranch(Stacks(env, core, conds, lines, path), lines, n, 0, j)
    decreases |lines|
  {
    if j > 0 {
      var t := Stacks(env, core, conds, lines, path);
      var first := NextStacks(env, core, conds, lines, path);
      var rest := Stacks(env, first.core, first.conds, lines[1..], path);
      assert t[1] == rest[0] == first.conds;
      LaterOpen(t, conds, rest, n, 1, j);
      TakenStays(env, core, conds, Classify(lines[0]), path, n);
      ActiveSince(env, first.core, first.conds, lines[1..], path, n, j - 1);
      LaterStacks(t, conds, rest, lines, n, 1, j);
      FromFirst(t, lines, n, j);
    }
  }

  lemma AfterFirstLine(env: Env, core: Core, conds: seq<Cond>, lines: seq<string>, path: string, n: nat, i: nat, j: nat)
    returns (first: After)
    requires GoodStack(conds) && 0 < i <= j
    requires var t := Stacks(env, core, conds, lines, path); OpenTo(t, n, i, i) && OpenTo(t, n, i, j)
    ensures lines != [] && GoodStack(first.conds)
    ensures var rest := Stacks(env, first.core, first.conds, lines[1..], path);
      && Stacks(env, core, conds, lines, path) == [conds] + rest
      && OpenTo(rest, n, i - 1, i - 1) && OpenTo(rest, n, i - 1, j - 1)
  {
    var t := Stacks(env, core, conds, lines, path);
    first := NextStacks(env, core, conds, lines, path);
    var rest := Stacks(env, first.core, first.conds, lines[1..], path);
    LaterOpen(t, conds, rest, n, i, i);
    LaterOpen(t, conds, rest, n, i, j);
    LineKeepsStackGood(env, core, conds, Classify(lines[0]), path);
  }

  /** Of the branches of a group at most one is ever active: as long as the group is open, two moments at which it is
      active lie in the same branch, whatever lines come between. */
  lemma {:induction false} OneBranchOnly(env: Env, core: Core, conds: seq<Cond>, lines: seq<string>, path: string,
                                         n: nat, i: nat, j: nat)
    requires GoodStack(conds)
    requires var t := Stacks(env, core, conds, lines, path); OpenTo(t, n, i, i) && OpenTo(t, n, i, j)
    ensures OneBranch(Stacks(env, core, conds, lines, path), lines, n, i, j)
    decreases |lines|
  {
    if i == 0 {
      assert conds[n - 1].branchTaken;
      ActiveSince(env, core, conds, lines, path, n, j);
    } else {
      var first := AfterFirstLine(env, core, conds, lines, path, n, i, j);
      OneBranchOnly(env, first.core, first.conds, lines[1..], path, n, i - 1, j - 1);
      LaterStacks(Stacks(env, core, conds, lines, path), conds, Stacks(env, first.core, first.conds, lines[1..], path),
                  lines, n, i, j);
    }
  }
}
