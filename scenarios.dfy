/** Whole scripts run through the model, for evaluators that give the
    values Python's `eval` gives on the texts involved. The line lemmas
    first work out `parse_line` on an indented statement of each kind. */
module Scenarios {
  import opened Wrappers
  import opened Text
  import opened Values
  import opened Statements
  import opened Semantics

  predicate Spaces(s: string) {
    forall i :: 0 <= i < |s| ==> s[i] == ' '
  }

  /** Stripping removes exactly a space indentation in front of a text that
      starts and ends with a non-space. */
  lemma {:induction false} StripIndented(indent: string, t: string)
    requires Spaces(indent) && t != [] && !IsSpace(t[0]) && !IsSpace(t[|t| - 1])
    ensures Strip(indent + t) == t
  {
    LStripIndented(indent, t);
  }

  lemma {:induction false} LStripIndented(indent: string, t: string)
    requires Spaces(indent) && t != [] && !IsSpace(t[0])
    ensures LStrip(indent + t) == t
  {
    if indent == [] {
      assert indent + t == t;
    } else {
      assert (indent + t)[1..] == indent[1..] + t;
      LStripIndented(indent[1..], t);
    }
  }

  lemma LetShape(raw: string, indent: string, n: Name, e: string)
    requires raw == indent + ("let " + n + " = " + e) && Spaces(indent)
    requires e != [] && NoNewline(e) && !IsSpace(e[|e| - 1])
    ensures Classify(Strip(raw)) == LetStmt && MatchLet(Strip(raw)) == Some((n, e))
  {
    var t := "let " + n + " = " + e;
    assert t[0] == 'l' && t[|t| - 1] == e[|e| - 1];
    StripIndented(indent, t);
    LetText(n, e);
  }

  /** The stripped text `let NAME = EXPR` is a `let` statement. */
  lemma LetText(n: Name, e: string)
    requires e != [] && NoNewline(e)
    ensures Classify("let " + n + " = " + e) == LetStmt
    ensures MatchLet("let " + n + " = " + e) == Some((n, e))
  {
    var t := "let " + n + " = " + e;
    assert t[0] == 'l' && t[..3] == "let";
    assert t + [] == t;
    MatchLetComplete(n, e, []);
  }

  lemma PrintShape(raw: string, indent: string, e: string)
    requires raw == indent + ("print " + e) && Spaces(indent)
    requires e != [] && NoNewline(e) && !IsSpace(e[|e| - 1])
    ensures Classify(Strip(raw)) == PrintStmt && MatchPrint(Strip(raw)) == Some(e)
  {
    var t := "print " + e;
    assert t[0] == 'p' && t[|t| - 1] == e[|e| - 1];
    StripIndented(indent, t);
    PrintText(e);
  }

  /** The stripped text `print EXPR` is a `print` statement. */
  lemma PrintText(e: string)
    requires e != [] && NoNewline(e)
    ensures Classify("print " + e) == PrintStmt && MatchPrint("print " + e) == Some(e)
  {
    var t := "print " + e;
    assert t[0] == 'p' && t[..5] == "print";
    assert t + [] == t;
    MatchPrintComplete(e, []);
  }

  lemma IfShape(raw: string, indent: string, c: string)
    requires raw == indent + ("if " + c + ":") && Spaces(indent)
    requires c != [] && NoNewline(c)
    ensures Classify(Strip(raw)) == IfStmt && MatchIf(Strip(raw)) == Some(c)
  {
    var t := "if " + c + ":";
    assert t[0] == 'i' && t[|t| - 1] == ':';
    StripIndented(indent, t);
    IfText(c);
  }

  /** The stripped text `if COND:` is an `if` statement with condition COND. */
  lemma IfText(c: string)
    requires c != [] && NoNewline(c)
    ensures Classify("if " + c + ":") == IfStmt && MatchIf("if " + c + ":") == Some(c)
  {
    var t := "if " + c + ":";
    assert Classify(t) == IfStmt by {
      assert t[0] == 'i' && t[1] == 'f';
      assert !("let" <= t) && !("print" <= t) && "if" <= t;
    }
    assert t + [] == t;
    MatchIfComplete(c, []);
  }

  lemma ElseShape(raw: string, indent: string)
    requires raw == indent + "else" && Spaces(indent)
    ensures Classify(Strip(raw)) == ElseStmt
  {
    StripIndented(indent, "else");
    assert "else"[..4] == "else";
  }

  /** A `let NAME = EXPR` line outside a block binds once. */
  lemma LetOutside(ev: Evaluator, st: Store, f: Flags, raw: string, n: Name, e: string, v: Value)
    requires !f.inIfBlock
    requires raw == "let " + n + " = " + e && e != [] && NoNewline(e) && !IsSpace(e[|e| - 1])
    requires EvalExpr(ev, st.vars, e) == Success(v)
    ensures Step(ev, st, f, raw) == Done(Store(Bind(st.vars, n, v), st.out), f)
  {
    assert raw == [] + ("let " + n + " = " + e);
    LetShape(raw, [], n, e);
    LetLine(ev, st, raw);
    OutsideBlockOnce(ev, st, f, raw);
  }

  /** A `print EXPR` line outside a block prints once. */
  lemma PrintOutside(ev: Evaluator, st: Store, f: Flags, raw: string, e: string, v: Value)
    requires !f.inIfBlock
    requires raw == "print " + e && e != [] && NoNewline(e) && !IsSpace(e[|e| - 1])
    requires EvalExpr(ev, st.vars, e) == Success(v)
    ensures Step(ev, st, f, raw) == Done(Store(st.vars, st.out + [Str(v)]), f)
  {
    assert raw == [] + ("print " + e);
    PrintShape(raw, [], e);
    PrintLine(ev, st, raw);
    OutsideBlockOnce(ev, st, f, raw);
  }

  /** A ` print EXPR` line inside a block. */
  lemma PrintIndented(ev: Evaluator, st: Store, f: Flags, raw: string, e: string, v: Value)
    requires f.inIfBlock
    requires raw == " " + ("print " + e) && e != [] && NoNewline(e) && !IsSpace(e[|e| - 1])
    requires EvalExpr(ev, st.vars, e) == Success(v)
    ensures Step(ev, st, f, raw) ==
      Done(Store(st.vars, st.out + if f.conditionResult then [Str(v), Str(v)] else [Str(v)]), f)
  {
    PrintShape(raw, " ", e);
    PrintInBlock(ev, st, f, raw, e, v);
  }

  /** An `if COND:` line whose condition is a `bool` opens a block. */
  lemma IfOpens(ev: Evaluator, st: Store, f: Flags, raw: string, c: string, b: bool)
    requires raw == "if " + c + ":" && c != [] && NoNewline(c)
    requires EvalExpr(ev, st.vars, c) == Success(BoolV(b))
    ensures Step(ev, st, f, raw) == Done(st, Flags(true, b))
  {
    assert raw == [] + ("if " + c + ":");
    IfShape(raw, [], c);
    IfLine(ev, st, raw);
    BoolLineOpensBlock(ev, st, f, raw, st, b);
  }

  /** An unindented `else` line. */
  lemma ElseStep(ev: Evaluator, st: Store, f: Flags, raw: string)
    requires raw == "else"
    ensures Step(ev, st, f, raw) == Done(st, Flags(true, true))
  {
    assert raw == [] + "else";
    ElseShape(raw, []);
    ElseLineSetsTrue(ev, st, f, raw);
  }

  /** The run from line `k` is one step and then the run from line `k + 1`. */
  lemma RunFrom(ev: Evaluator, st: Store, f: Flags, lines: seq<string>, k: nat, s: Store, f': Flags)
    requires k < |lines| && Step(ev, st, f, lines[k]) == Done(s, f')
    ensures Run(ev, st, f, lines[k..]) == Run(ev, s, f', lines[k + 1..])
  {
    assert lines[k..][0] == lines[k];
    assert lines[k..][1..] == lines[k + 1..];
  }

  /** One step makes a run of one line. */
  lemma RunOne(ev: Evaluator, lines: seq<string>, s0: Store, f0: Flags, s1: Store, f1: Flags)
    requires |lines| == 1 && Step(ev, s0, f0, lines[0]) == Done(s1, f1)
    ensures Run(ev, s0, f0, lines) == Done(s1, f1)
  {
    assert lines[1..] == [];
  }

  /** Two steps in a row make a run of two lines. */
  lemma RunTwo(ev: Evaluator, lines: seq<string>, s0: Store, f0: Flags, s1: Store, f1: Flags, s2: Store, f2: Flags)
    requires |lines| == 2
    requires Step(ev, s0, f0, lines[0]) == Done(s1, f1)
    requires Step(ev, s1, f1, lines[1]) == Done(s2, f2)
    ensures Run(ev, s0, f0, lines) == Done(s2, f2)
  {
    assert lines[0..] == lines;
    RunFrom(ev, s0, f0, lines, 0, s1, f1);
    RunFrom(ev, s1, f1, lines, 1, s2, f2);
    assert lines[2..] == [];
  }

  // Substitutions met in the scripts below.

  /** A one-character name that does not occur in a text leaves it alone. */
  lemma {:induction false} ReplaceCharAbsent(s: string, c: char, rep: string)
    requires c !in s
    ensures ReplaceAll(s, [c], rep) == s
  {
    if s != [] {
      assert s[0] != c;
      assert !([c] <= s);
      assert c !in s[1..];
      ReplaceCharAbsent(s[1..], c, rep);
      assert s == [s[0]] + s[1..];
    }
  }

  /** `x` reaches the evaluator as the text `d` of its value. */
  lemma EvalX(ev: Evaluator, v: Value, d: string)
    requires Str(v) == d && ev(d) == Success(v)
    ensures EvalExpr(ev, [("x", v)], "x") == Success(v)
  {
    assert ReplaceAll("x", "x", d) == d;
    assert Substitute([("x", v)], "x") == d;
  }

  /** `x > 1` reaches the evaluator as `d > 1`. */
  lemma EvalCompare(ev: Evaluator, v: Value, d: string, b: bool)
    requires Str(v) == d && ev(d + " > 1") == Success(BoolV(b))
    ensures EvalExpr(ev, [("x", v)], "x > 1") == Success(BoolV(b))
  {
    var s := "x > 1";
    assert "x" <= s && s[1..] == " > 1" by {
      assert s == "x" + " > 1";
    }
    assert 'x' !in " > 1";
    ReplaceCharAbsent(" > 1", 'x', d);
    assert Substitute([("x", v)], s) == d + " > 1";
  }

  /** `0` reaches the evaluator unchanged. */
  lemma EvalZero(ev: Evaluator, v: Value)
    requires ev("0") == Success(IntV(0))
    ensures EvalExpr(ev, [("x", v)], "0") == Success(IntV(0))
  {
    assert 'x' !in "0";
    ReplaceCharAbsent("0", 'x', Str(v));
    assert Substitute([("x", v)], "0") == "0";
  }

  // The steps the scripts below take, for a variable `x` bound to `v`
  // whose `str()` is the text `d`.

  lemma LetXStep(ev: Evaluator, raw: string, d: string, v: Value)
    requires raw == "let x = " + d && d != [] && NoNewline(d) && !IsSpace(d[|d| - 1])
    requires ev(d) == Success(v)
    ensures Step(ev, Store([], []), Flags(false, false), raw) ==
      Done(Store([("x", v)], []), Flags(false, false))
  {
    assert raw == "let " + "x" + " = " + d;
    LetOutside(ev, Store([], []), Flags(false, false), raw, "x", d, v);
  }

  lemma PrintXStep(ev: Evaluator, raw: string, d: string, v: Value)
    requires raw == "print x" && Str(v) == d && ev(d) == Success(v)
    ensures Step(ev, Store([("x", v)], []), Flags(false, false), raw) ==
      Done(Store([("x", v)], [d]), Flags(false, false))
  {
    assert raw == "print " + "x";
    EvalX(ev, v, d);
    PrintOutside(ev, Store([("x", v)], []), Flags(false, false), raw, "x", v);
    assert [] + [Str(v)] == [d];
  }

  lemma IfCompareStep(ev: Evaluator, raw: string, d: string, v: Value, cmp: string, b: bool)
    requires raw == "if x > 1:" && Str(v) == d && cmp == d + " > 1" && ev(cmp) == Success(BoolV(b))
    ensures Step(ev, Store([("x", v)], []), Flags(false, false), raw) ==
      Done(Store([("x", v)], []), Flags(true, b))
  {
    assert raw == "if " + "x > 1" + ":";
    EvalCompare(ev, v, d, b);
    IfOpens(ev, Store([("x", v)], []), Flags(false, false), raw, "x > 1", b);
  }

  lemma PrintXInBlockStep(ev: Evaluator, raw: string, d: string, v: Value, out: seq<string>, c: bool)
    requires raw == " print x" && Str(v) == d && ev(d) == Success(v)
    ensures Step(ev, Store([("x", v)], out), Flags(true, c), raw) ==
      Done(Store([("x", v)], out + if c then [d, d] else [d]), Flags(true, c))
  {
    assert raw == " " + ("print " + "x");
    EvalX(ev, v, d);
    PrintIndented(ev, Store([("x", v)], out), Flags(true, c), raw, "x", v);
  }

  lemma PrintZeroInBlockStep(ev: Evaluator, raw: string, v: Value, out: seq<string>, c: bool)
    requires raw == " print 0" && ev("0") == Success(IntV(0))
    ensures Step(ev, Store([("x", v)], out), Flags(true, c), raw) ==
      Done(Store([("x", v)], out + if c then ["0", "0"] else ["0"]), Flags(true, c))
  {
    assert raw == " " + ("print " + "0");
    EvalZero(ev, v);
    assert Str(IntV(0)) == "0";
    PrintIndented(ev, Store([("x", v)], out), Flags(true, c), raw, "0", IntV(0));
  }

  /** `let x = 5` then `print x` prints `5`. */
  lemma AssignThenPrint(ev: Evaluator, script: seq<string>)
    requires ev("5") == Success(IntV(5))
    requires script == ["let x = 5", "print x"]
    ensures RunScript(ev, script) == Done(Store([("x", IntV(5))], ["5"]), Flags(false, false))
  {
    var f := Flags(false, false);
    var s0, s1, s2 := Store([], []), Store([("x", IntV(5))], []), Store([("x", IntV(5))], ["5"]);
    LetXStep(ev, script[0], "5", IntV(5));
    PrintXStep(ev, script[1], "5", IntV(5));
    RunTwo(ev, script, s0, f, s1, f, s2, f);
  }

  /** The whole output of the script below, written out. */
  lemma ShownThenZeros(d: string, b: bool)
    ensures Shown(d, b) + ["0", "0"] == if b then [d, d, "0", "0"] else [d, "0", "0"]
  { }

  /** The script `let x = D`, `if x > 1:`, ` print x`, `else`, ` print 0`,
      for a literal `D` whose value prints back as `D`, and an evaluator
      that gives that value, the truth value `b` of `D > 1` and 0. */
  predicate IfElseSetup(ev: Evaluator, script: seq<string>, d: string, v: Value, b: bool) {
    && d != [] && NoNewline(d) && !IsSpace(d[|d| - 1]) && Str(v) == d
    && ev(d) == Success(v) && ev(d + " > 1") == Success(BoolV(b))
    && ev("0") == Success(IntV(0))
    && script == ["let x = " + d, "if x > 1:", " print x", "else", " print 0"]
  }

  /** What ` print x` shows under the condition `b`. */
  function Shown(d: string, b: bool): (r: seq<string>)
    ensures |r| == if b then 2 else 1
    ensures forall i :: 0 <= i < |r| ==> r[i] == d
  {
    if b then [d, d] else [d]
  }

  lemma IfElseLine0(ev: Evaluator, script: seq<string>, d: string, v: Value, b: bool)
    requires IfElseSetup(ev, script, d, v, b)
    ensures Step(ev, Store([], []), Flags(false, false), script[0]) ==
      Done(Store([("x", v)], []), Flags(false, false))
  {
    LetXStep(ev, script[0], d, v);
  }

  lemma IfElseLine1(ev: Evaluator, script: seq<string>, d: string, v: Value, b: bool)
    requires IfElseSetup(ev, script, d, v, b)
    ensures Step(ev, Store([("x", v)], []), Flags(false, false), script[1]) ==
      Done(Store([("x", v)], []), Flags(true, b))
  {
    IfCompareStep(ev, script[1], d, v, d + " > 1", b);
  }

  lemma IfElseLine2(ev: Evaluator, script: seq<string>, d: string, v: Value, b: bool)
    requires IfElseSetup(ev, script, d, v, b)
    ensures Step(ev, Store([("x", v)], []), Flags(true, b), script[2]) ==
      Done(Store([("x", v)], Shown(d, b)), Flags(true, b))
  {
    PrintXInBlockStep(ev, script[2], d, v, [], b);
    assert [] + Shown(d, b) == Shown(d, b);
  }

  lemma IfElseLine3(ev: Evaluator, script: seq<string>, d: string, v: Value, b: bool)
    requires IfElseSetup(ev, script, d, v, b)
    ensures Step(ev, Store([("x", v)], Shown(d, b)), Flags(true, b), script[3]) ==
      Done(Store([("x", v)], Shown(d, b)), Flags(true, true))
  {
    ElseStep(ev, Store([("x", v)], Shown(d, b)), Flags(true, b), script[3]);
  }

  lemma IfElseLine4(ev: Evaluator, script: seq<string>, d: string, v: Value, b: bool)
    requires IfElseSetup(ev, script, d, v, b)
    ensures Step(ev, Store([("x", v)], Shown(d, b)), Flags(true, true), script[4]) ==
      Done(Store([("x", v)], Shown(d, b) + ["0", "0"]), Flags(true, true))
  {
    PrintZeroInBlockStep(ev, script[4], v, Shown(d, b), true);
  }

  /** From the `else` line on. */
  lemma IfElseFromElse(ev: Evaluator, script: seq<string>, d: string, v: Value, b: bool)
    requires IfElseSetup(ev, script, d, v, b)
    ensures Run(ev, Store([("x", v)], Shown(d, b)), Flags(true, b), script[3..]) ==
      Done(Store([("x", v)], Shown(d, b) + ["0", "0"]), Flags(true, true))
  {
    var s2 := Store([("x", v)], Shown(d, b));
    IfElseLine3(ev, script, d, v, b);
    IfElseLine4(ev, script, d, v, b);
    RunFrom(ev, s2, Flags(true, b), script, 3, s2, Flags(true, true));
    RunFrom(ev, s2, Flags(true, true), script, 4, Store([("x", v)], Shown(d, b) + ["0", "0"]), Flags(true, true));
    assert script[5..] == [];
  }

  /** From the `if` line on. */
  lemma IfElseFromIf(ev: Evaluator, script: seq<string>, d: string, v: Value, b: bool)
    requires IfElseSetup(ev, script, d, v, b)
    ensures Run(ev, Store([("x", v)], []), Flags(false, false), script[1..]) ==
      Done(Store([("x", v)], Shown(d, b) + ["0", "0"]), Flags(true, true))
  {
    var s1 := Store([("x", v)], []);
    IfElseLine1(ev, script, d, v, b);
    IfElseLine2(ev, script, d, v, b);
    RunFrom(ev, s1, Flags(false, false), script, 1, s1, Flags(true, b));
    RunFrom(ev, s1, Flags(true, b), script, 2, Store([("x", v)], Shown(d, b)), Flags(true, b));
    IfElseFromElse(ev, script, d, v, b);
  }

  /** Run through the script: when `D > 1` is true the body line prints
      twice (it is parsed once on its own and once more for the true
      condition); when it is false the body line still prints once. Either
      way `else` sets the condition to true, so ` print 0` prints twice. */
  lemma IfElseRun(ev: Evaluator, script: seq<string>, d: string, v: Value, b: bool)
    requires IfElseSetup(ev, script, d, v, b)
    ensures RunScript(ev, script) ==
      Done(Store([("x", v)], Shown(d, b) + ["0", "0"]), Flags(true, true))
  {
    IfElseLine0(ev, script, d, v, b);
    assert script[0..] == script;
    RunFrom(ev, Store([], []), Flags(false, false), script, 0, Store([("x", v)], []), Flags(false, false));
    IfElseFromIf(ev, script, d, v, b);
  }

  /** With `x` bound to 3 the script prints `3` twice and then `0` twice. */
  lemma IfElseWithTrueCondition(ev: Evaluator, script: seq<string>)
    requires ev("3") == Success(IntV(3)) && ev("3 > 1") == Success(BoolV(true))
    requires ev("0") == Success(IntV(0))
    requires script == ["let x = 3", "if x > 1:", " print x", "else", " print 0"]
    ensures RunScript(ev, script) ==
      Done(Store([("x", IntV(3))], ["3", "3", "0", "0"]), Flags(true, true))
  {
    assert Str(IntV(3)) == "3";
    assert "let x = " + "3" == "let x = 3" && "3" + " > 1" == "3 > 1";
    IfElseRun(ev, script, "3", IntV(3), true);
    ShownThenZeros("3", true);
  }

  /** The same script as `readlines` gives it from a file, every line
      ending in a newline but the last. */
  lemma IfElseFileWithTrueCondition(ev: Evaluator, read: seq<string>, script: seq<string>)
    requires ev("3") == Success(IntV(3)) && ev("3 > 1") == Success(BoolV(true))
    requires ev("0") == Success(IntV(0))
    requires read == ["let x = 3\n", "if x > 1:\n", " print x\n", "else\n", " print 0"]
    requires script == ["let x = 3", "if x > 1:", " print x", "else", " print 0"]
    ensures RunScript(ev, read) ==
      Done(Store([("x", IntV(3))], ["3", "3", "0", "0"]), Flags(true, true))
  {
    IfElseWithTrueCondition(ev, script);
    IfElseFileLines(ev, read, script);
  }

  lemma IfElseFileLines(ev: Evaluator, read: seq<string>, script: seq<string>)
    requires read == ["let x = 3\n", "if x > 1:\n", " print x\n", "else\n", " print 0"]
    requires script == ["let x = 3", "if x > 1:", " print x", "else", " print 0"]
    ensures RunScript(ev, read) == RunScript(ev, script)
  {
    assert read[0] == script[0] + "\n" && read[1] == script[1] + "\n";
    assert read[2] == script[2] + "\n" && read[3] == script[3] + "\n";
    RunIgnoresLineEnds(ev, Store([], []), Flags(false, false), read, script);
  }

  /** With `x` bound to 0 the script prints `0` three times. */
  lemma IfElseWithFalseCondition(ev: Evaluator, script: seq<string>)
    requires ev("0") == Success(IntV(0)) && ev("0 > 1") == Success(BoolV(false))
    requires script == ["let x = 0", "if x > 1:", " print x", "else", " print 0"]
    ensures RunScript(ev, script) ==
      Done(Store([("x", IntV(0))], ["0", "0", "0"]), Flags(true, true))
  {
    assert Str(IntV(0)) == "0";
    assert "let x = " + "0" == "let x = 0" && "0" + " > 1" == "0 > 1";
    IfElseRun(ev, script, "0", IntV(0), false);
    ShownThenZeros("0", false);
  }

  /** A `print` line on a fresh interpreter prints the value of its
      expression as written. */
  lemma PrintFreshStep(ev: Evaluator, raw: string, e: string, v: Value, d: string)
    requires raw == "print " + e && e != [] && NoNewline(e) && !IsSpace(e[|e| - 1])
    requires ev(e) == Success(v) && Str(v) == d
    ensures Step(ev, Store([], []), Flags(false, false), raw) == Done(Store([], [d]), Flags(false, false))
  {
    PrintOutside(ev, Store([], []), Flags(false, false), raw, e, v);
    assert [] + [Str(v)] == [d];
  }

  /** `print 2 + 3 * 4` prints `14`: the expression reaches the evaluator
      as written, and its value is printed in decimal. */
  lemma ExpressionPrinted(ev: Evaluator, script: seq<string>)
    requires ev("2 + 3 * 4") == Success(IntV(14))
    requires script == ["print 2 + 3 * 4"]
    ensures RunScript(ev, script) == Done(Store([], ["14"]), Flags(false, false))
  {
    ExpressionPrintedStep(ev, script);
    RunOne(ev, script, Store([], []), Flags(false, false), Store([], ["14"]), Flags(false, false));
  }

  lemma ExpressionPrintedStep(ev: Evaluator, script: seq<string>)
    requires ev("2 + 3 * 4") == Success(IntV(14))
    requires script == ["print 2 + 3 * 4"]
    ensures Step(ev, Store([], []), Flags(false, false), script[0]) ==
      Done(Store([], ["14"]), Flags(false, false))
  {
    var e := "2 + 3 * 4";
    assert script[0] == "print " + e && NoNewline(e) && e[|e| - 1] == '4';
    assert Str(IntV(14)) == "14";
    PrintFreshStep(ev, script[0], e, IntV(14), "14");
  }

  /** `print y` with `y` never assigned: the evaluator sees the text `y`,
      raises, and the run ends with that text in the error. */
  lemma UnboundNameAborts(ev: Evaluator, script: seq<string>, cause: string)
    requires ev("y") == Failure(cause)
    requires script == ["print y"]
    ensures RunScript(ev, script) == Raised(Store([], []), EvalError("y", cause))
  {
    PrintShape(script[0], "", "y");
    PrintLine(ev, Store([], []), script[0]);
  }

  /** With `x` bound before `xy`, the text `xy` becomes `1y`: the variable
      `xy` is never looked up. */
  lemma NameInsideLongerName()
    ensures Substitute([("x", IntV(1)), ("xy", IntV(2))], "xy") == "1y"
  {
    assert ReplaceAll("xy", "x", "1") == "1y";
    assert ReplaceAll("1y", "xy", "2") == "1y";
  }
}
