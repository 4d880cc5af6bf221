/** Recognising statements: the prefix classification of `parse_line` and
    the three fixed regular expressions of the statement handlers, written
    as direct string functions. In these patterns `.` matches any character
    but a newline and `\w` an ASCII letter, digit or underscore; `re.match`
    anchors the pattern at the start of the line only. */
module Statements {
  import opened Wrappers
  import opened Text

  /** The branch `parse_line` takes on a stripped line. */
  datatype Kind = Blank | LetStmt | PrintStmt | IfStmt | ElseStmt | Passthrough

  predicate IsBlankOrComment(t: string) {
    t == [] || "#" <= t
  }

  /** Classification of a stripped line: blank and comment lines first, then
      the plain prefix tests `let`, `print`, `if`, `else` in this order. */
  function Classify(t: string): (k: Kind)
    ensures k == Blank <==> IsBlankOrComment(t)
    ensures k == LetStmt <==> !IsBlankOrComment(t) && "let" <= t
    ensures k == PrintStmt <==> !IsBlankOrComment(t) && !("let" <= t) && "print" <= t
    ensures k == IfStmt <==> !IsBlankOrComment(t) && !("let" <= t) && !("print" <= t) && "if" <= t
    ensures k == ElseStmt <==>
      !IsBlankOrComment(t) && !("let" <= t) && !("print" <= t) && !("if" <= t) && "else" <= t
    ensures k == Passthrough <==>
      !IsBlankOrComment(t) && !("let" <= t) && !("print" <= t) && !("if" <= t) && !("else" <= t)
  {
    if IsBlankOrComment(t) then Blank
    else if "let" <= t then LetStmt
    else if "print" <= t then PrintStmt
    else if "if" <= t then IfStmt
    else if "else" <= t then ElseStmt
    else Passthrough
  }

  /** Length of the longest prefix of word characters (what greedy `\w+` takes). */
  function WordRun(s: string): (n: nat)
    ensures n <= |s|
    ensures forall i :: 0 <= i < n ==> IsWordChar(s[i])
    ensures n == |s| || !IsWordChar(s[n])
  {
    if s != [] && IsWordChar(s[0]) then 1 + WordRun(s[1..]) else 0
  }

  /** Length of the longest prefix without a newline (what greedy `.+` takes). */
  function LineRun(s: string): (n: nat)
    ensures n <= |s| && NoNewline(s[..n])
    ensures n == |s| || s[n] == '\n'
  {
    if s != [] && s[0] != '\n' then 1 + LineRun(s[1..]) else 0
  }

  /** Index of the last ':' in `s`, or -1. */
  function LastColon(s: string): (k: int)
    ensures -1 <= k < |s|
    ensures k >= 0 ==> s[k] == ':'
    ensures forall j :: k < j < |s| ==> s[j] != ':'
  {
    if s == [] then -1
    else if s[|s| - 1] == ':' then |s| - 1
    else LastColon(s[..|s| - 1])
  }

  /** `re.match(r"let (\w+) = (.+)", t)`, giving the two groups. */
  function MatchLet(t: string): (m: Option<(Name, string)>)
    ensures m.Some? ==>
      var (n, e) := m.value;
      && e != [] && NoNewline(e)
      && "let " + n + " = " + e <= t
      && (|t| == 7 + |n| + |e| || t[7 + |n| + |e|] == '\n')
  {
    if !("let " <= t) then None
    else
      var rest := t[4..];
      var n := WordRun(rest);
      if n == 0 || !(" = " <= rest[n..]) then None
      else
        var tail := rest[n + 3..];
        var e := tail[..LineRun(tail)];
        if e == [] then None
        else
          LetPieces(t, n);
          Some((rest[..n], e))
  }

  /** A line that starts with `let `, a name of length `n` and ` = `. */
  lemma LetPieces(t: string, n: nat)
    requires "let " <= t && 4 + n <= |t| && " = " <= t[4..][n..]
    ensures t == "let " + t[4..][..n] + " = " + t[4..][n + 3..]
  {
    var rest := t[4..];
    assert rest == rest[..n] + rest[n..];
    assert rest[n..] == " = " + rest[n + 3..];
    assert t == "let " + rest;
  }

  /** Every line of the shape `let NAME = EXPR` followed by nothing or a
      newline matches, with NAME and EXPR as its groups. */
  lemma MatchLetComplete(n: Name, e: string, rest: string)
    requires e != [] && NoNewline(e) && (rest == [] || rest[0] == '\n')
    ensures MatchLet("let " + n + " = " + e + rest) == Some((n, e))
  {
    var t := "let " + (n + (" = " + (e + rest)));
    LetLineAssoc(n, e, rest);
    NameThenEquals(n, e + rest);
    LineRunOf(e, rest);
    assert (e + rest)[..|e|] == e;
    MatchLetOn(t, |n|, |e|);
  }

  lemma LetLineAssoc(n: string, e: string, rest: string)
    ensures var t := "let " + (n + (" = " + (e + rest)));
      "let " + n + " = " + e + rest == t && "let " <= t && t[4..] == n + (" = " + (e + rest))
  {
  }

  lemma NameThenEquals(n: Name, x: string)
    ensures var r := n + (" = " + x);
      WordRun(r) == |n| && r[..|n|] == n && " = " <= r[|n|..] && r[|n| + 3..] == x
  {
    var r := n + (" = " + x);
    WordRunOfName(n, " = " + x);
    assert r[|n|..] == " = " + x;
  }

  /** How `MatchLet` reads a line once the lengths of its two runs are known. */
  lemma MatchLetOn(t: string, k: nat, m: nat)
    requires "let " <= t && 0 < k && WordRun(t[4..]) == k && " = " <= t[4..][k..]
    requires 0 < m && LineRun(t[4..][k + 3..]) == m
    ensures MatchLet(t) == Some((t[4..][..k], t[4..][k + 3..][..m]))
  {
  }

  lemma {:induction false} WordRunOfName(n: string, rest: string)
    requires forall i :: 0 <= i < |n| ==> IsWordChar(n[i])
    requires rest == [] || !IsWordChar(rest[0])
    ensures WordRun(n + rest) == |n|
  {
    if n != [] {
      assert (n + rest)[1..] == n[1..] + rest;
      WordRunOfName(n[1..], rest);
    }
  }

  lemma {:induction false} LineRunOf(e: string, rest: string)
    requires NoNewline(e) && (rest == [] || rest[0] == '\n')
    ensures LineRun(e + rest) == |e|
  {
    if e != [] {
      assert (e + rest)[1..] == e[1..] + rest;
      LineRunOf(e[1..], rest);
    }
  }

  /** `re.match(r"print (.+)", t)`, giving the group. */
  function MatchPrint(t: string): (m: Option<string>)
    ensures m.Some? ==>
      && m.value != [] && NoNewline(m.value)
      && "print " + m.value <= t
      && (|t| == 6 + |m.value| || t[6 + |m.value|] == '\n')
  {
    if !("print " <= t) then None
    else
      var tail := t[6..];
      var e := tail[..LineRun(tail)];
      if e == [] then None
      else
        assert t == "print " + tail;
        Some(e)
  }

  /** Every line `print EXPR` followed by nothing or a newline matches. */
  lemma MatchPrintComplete(e: string, rest: string)
    requires e != [] && NoNewline(e) && (rest == [] || rest[0] == '\n')
    ensures MatchPrint("print " + e + rest) == Some(e)
  {
    var t := "print " + e + rest;
    assert t[6..] == e + rest;
    LineRunOf(e, rest);
  }

  /** No ':' before the first newline of `s`. */
  predicate NoColonOnLine(s: string) {
    forall j :: 0 <= j < LineRun(s) ==> s[j] != ':'
  }

  /** `re.match(r"if (.+):", t)`, giving the group: greedy `.+` backtracks
      to the last ':' of the first line, which must not be the first
      character after "if ". */
  function MatchIf(t: string): Option<string>
  {
    if !("if " <= t) then None
    else
      var tail := t[3..];
      var run := tail[..LineRun(tail)];
      var k := LastColon(run);
      if k < 1 then None else Some(run[..k])
  }

  /** A match of `if (.+):` is "if ", a non-empty one-line condition, and a
      ':' after which the line holds no further ':'. */
  lemma MatchIfSound(t: string)
    requires MatchIf(t).Some?
    ensures var c := MatchIf(t).value;
      && c != [] && NoNewline(c)
      && "if " + c + ":" <= t
      && NoColonOnLine(t[4 + |c|..])
  {
    var tail := t[3..];
    var run := tail[..LineRun(tail)];
    var k := LastColon(run);
    var c := run[..k];
    assert c == tail[..k];
    assert t[..4 + k] == "if " + c + ":";
    var after := t[4 + k..];
    assert after == tail[k + 1..];
    LineRunSuffix(tail, k + 1);
    forall j | 0 <= j < LineRun(after) ensures after[j] != ':' {
      assert after[j] == run[k + 1 + j];
    }
  }

  /** The newline-free run of a suffix lies inside the run of the whole. */
  lemma {:induction false} LineRunSuffix(s: string, k: nat)
    requires k <= LineRun(s)
    ensures LineRun(s[k..]) == LineRun(s) - k
  {
    if k > 0 {
      assert s[k..] == s[1..][k - 1..];
      LineRunSuffix(s[1..], k - 1);
    }
  }

  /** Every line `if COND:` whose first line has no later ':' matches, with
      COND as its group. */
  lemma MatchIfComplete(c: string, rest: string)
    requires c != [] && NoNewline(c) && NoColonOnLine(rest)
    ensures MatchIf("if " + c + ":" + rest) == Some(c)
  {
    var t := "if " + c + ":" + rest;
    var tail := t[3..];
    assert tail == (c + ":") + rest;
    assert NoNewline(c + ":");
    LineRunPrefix(c + ":", rest);
    var run := tail[..LineRun(tail)];
    assert run[|c|] == ':';
    forall j | |c| < j < |run| ensures run[j] != ':' {
      assert run[j] == rest[j - |c| - 1];
    }
    LastColonAt(run, |c|);
    assert run[..|c|] == c;
  }

  lemma {:induction false} LineRunPrefix(e: string, rest: string)
    requires NoNewline(e)
    ensures LineRun(e + rest) == |e| + LineRun(rest)
  {
    if e != [] {
      assert (e + rest)[0] == e[0];
      assert (e + rest)[1..] == e[1..] + rest;
      assert NoNewline(e[1..]);
      LineRunPrefix(e[1..], rest);
      assert LineRun(e + rest) == 1 + LineRun(e[1..] + rest);
    } else {
      assert e + rest == rest;
    }
  }

  lemma {:induction false} LastColonAt(s: string, k: nat)
    requires k < |s| && s[k] == ':'
    requires forall j :: k < j < |s| ==> s[j] != ':'
    ensures LastColon(s) == k
  {
    if k < |s| - 1 {
      LastColonAt(s[..|s| - 1], k);
    }
  }
}
