/** What the interpreter does, as functions of its state: the variable
    environment (a Python dict, kept in insertion order), the lines printed
    so far, and, while `run` loops, its two flags. Python's `eval` is a
    parameter of every operation: an evaluator from the substituted text to
    a value or to the text of the exception it raises. */
module Semantics {
  import opened Wrappers
  import opened Text
  import opened Values
  import opened Statements

  /** `self.variables`: (name, value) pairs in insertion order. */
  type Env = seq<(Name, Value)>

  /** The interpreter's observable state: its variables and its output lines. */
  datatype Store = Store(vars: Env, out: seq<string>)

  /** The `ValueError` of `evaluate_expression`: the text after
      substitution and the message of the evaluator's exception. */
  datatype EvalError = EvalError(expr: string, cause: string)

  /** Python's `eval`: a value, or the message of the `Exception` it raises. */
  type Evaluator = string -> Result<Value, string>

  /** The end of a step: it returns a value, or it raises after the store
      has reached the given state. */
  datatype Outcome<+T> = Done(store: Store, value: T) | Raised(store: Store, err: EvalError)

  /** The two local flags of `run`: `in_if_block` and `condition_result`. */
  datatype Flags = Flags(inIfBlock: bool, conditionResult: bool)

  // ---------------------------------------------------------------------
  // The variable environment

  predicate DistinctNames(env: Env) {
    forall i, j :: 0 <= i < j < |env| ==> env[i].0 != env[j].0
  }

  /** `self.variables.get(n)`. */
  function Lookup(env: Env, n: Name): Option<Value> {
    if env == [] then None
    else if env[0].0 == n then Some(env[0].1)
    else Lookup(env[1..], n)
  }

  /** With distinct names, as dict keys are, every entry is what a lookup of
      its name reads: no later entry is shadowed by an earlier one. */
  lemma {:induction false} LookupEntry(env: Env, i: nat)
    requires DistinctNames(env) && i < |env|
    ensures Lookup(env, env[i].0) == Some(env[i].1)
    decreases i
  {
    if i > 0 {
      assert env[0].0 != env[i].0;
      assert DistinctNames(env[1..]) by {
        forall a, b | 0 <= a < b < |env[1..]|
          ensures env[1..][a].0 != env[1..][b].0
        {
          assert env[1..][a] == env[a + 1] && env[1..][b] == env[b + 1];
        }
      }
      LookupEntry(env[1..], i - 1);
      assert env[1..][i - 1] == env[i];
    }
  }

  /** `self.variables[n] = v`: a present key keeps its position, a new key
      goes last. */
  function Bind(env: Env, n: Name, v: Value): Env {
    if env == [] then [(n, v)]
    else if env[0].0 == n then [(n, v)] + env[1..]
    else [env[0]] + Bind(env[1..], n, v)
  }

  /** After binding, the name reads the new value and every other name
      reads what it read before. */
  lemma {:induction false} LookupBind(env: Env, n: Name, v: Value, m: Name)
    ensures Lookup(Bind(env, n, v), m) == if m == n then Some(v) else Lookup(env, m)
  {
    if env != [] && env[0].0 != n {
      LookupBind(env[1..], n, v, m);
    }
  }

  /** Binding an existing name keeps every position and every other entry;
      binding a new name appends it. */
  lemma {:induction false} BindShape(env: Env, n: Name, v: Value)
    ensures Lookup(env, n).None? ==> Bind(env, n, v) == env + [(n, v)]
    ensures Lookup(env, n).Some? ==>
      var r := Bind(env, n, v);
      && |r| == |env|
      && (forall i :: 0 <= i < |env| ==> r[i].0 == env[i].0)
      && (forall i :: 0 <= i < |env| && env[i].0 != n ==> r[i] == env[i])
  {
    if env != [] && env[0].0 != n {
      BindShape(env[1..], n, v);
      assert env == [env[0]] + env[1..];
    }
  }

  /** Binding keeps the names distinct, as the keys of a dict are. */
  lemma {:induction false} BindDistinct(env: Env, n: Name, v: Value)
    requires DistinctNames(env)
    ensures DistinctNames(Bind(env, n, v))
  {
    if env != [] && env[0].0 != n {
      BindDistinct(env[1..], n, v);
      var r := Bind(env, n, v);
      BindShape(env[1..], n, v);
      forall j | 1 <= j < |r| ensures r[j].0 != env[0].0 {
        if Lookup(env[1..], n).None? {
          if j < |env| {
            assert r[j] == env[j];
          }
        } else {
          assert r[j].0 == env[j].0;
        }
      }
    }
  }

  /** A second binding of the same name overrides the first in place. */
  lemma {:induction false} BindTwice(env: Env, n: Name, a: Value, b: Value)
    ensures Bind(Bind(env, n, a), n, b) == Bind(env, n, b)
  {
    if env != [] && env[0].0 != n {
      BindTwice(env[1..], n, a, b);
    }
  }

  // ---------------------------------------------------------------------
  // Expression evaluation

  /** The substitution loop of `evaluate_expression`: for each variable in
      insertion order, every occurrence of its name in the text is replaced
      by `str()` of its value. */
  function Substitute(env: Env, expr: string): string
    decreases |env|
  {
    if env == [] then expr
    else Substitute(env[1..], ReplaceAll(expr, env[0].0, Str(env[0].1)))
  }

  /** `evaluate_expression`: the evaluator sees the substituted text; its
      failure is reported with that same text. */
  function EvalExpr(ev: Evaluator, env: Env, expr: string): Result<Value, EvalError> {
    var s := Substitute(env, expr);
    match ev(s)
    case Success(v) => Success(v)
    case Failure(cause) => Failure(EvalError(s, cause))
  }

  /** With no variables the expression reaches the evaluator unchanged. */
  lemma EvalExprNoVariables(ev: Evaluator, expr: string)
    ensures EvalExpr(ev, [], expr) ==
      match ev(expr)
      case Success(v) => Success(v)
      case Failure(cause) => Failure(EvalError(expr, cause))
  {
  }

  /** A failed evaluation reports the substituted text and the evaluator's
      message, not the expression as written. */
  lemma EvalExprFailure(ev: Evaluator, env: Env, expr: string)
    requires ev(Substitute(env, expr)).Failure?
    ensures EvalExpr(ev, env, expr) ==
      Failure(EvalError(Substitute(env, expr), ev(Substitute(env, expr)).error))
  {
  }

  /** Substitution goes in binding order: a later binding is applied to the
      text the earlier ones produced. */
  lemma {:induction false} SubstituteAppend(env: Env, n: Name, v: Value, expr: string)
    ensures Substitute(env + [(n, v)], expr) == ReplaceAll(Substitute(env, expr), n, Str(v))
    decreases |env|
  {
    if env == [] {
      assert [] + [(n, v)] == [(n, v)];
    } else {
      assert (env + [(n, v)])[1..] == env[1..] + [(n, v)];
      SubstituteAppend(env[1..], n, v, ReplaceAll(expr, env[0].0, Str(env[0].1)));
    }
  }

  /** A text that mentions none of the names is left unchanged. */
  lemma {:induction false} SubstituteAbsent(env: Env, expr: string)
    requires forall k :: 0 <= k < |env| ==> !Occurs(expr, env[k].0)
    ensures Substitute(env, expr) == expr
    decreases |env|
  {
    if env != [] {
      ReplaceAllAbsent(expr, env[0].0, Str(env[0].1));
      SubstituteAbsent(env[1..], expr);
    }
  }

  /** Substitution is textual: when the text `m` reaches the binding of
      `n` untouched by the earlier names, that binding alters it exactly
      when `n` occurs inside `m` and `str()` of its value is not `n`
      itself. So a name inside a longer identifier is replaced too, and a
      variable bound later under the name `m` no longer finds its text. */
  lemma SubstituteInsideIdentifier(pre: Env, n: Name, v: Value, m: string)
    requires forall k :: 0 <= k < |pre| ==> !Occurs(m, pre[k].0)
    ensures Substitute(pre + [(n, v)], m) != m <==> Occurs(m, n) && Str(v) != n
  {
    SubstituteAppend(pre, n, v, m);
    SubstituteAbsent(pre, m);
    ReplaceAllUnchanged(m, n, Str(v));
  }

  // ---------------------------------------------------------------------
  // Statement handlers and `parse_line`, on a stripped line `t`

  /** `handle_variable_assignment`. */
  function HandleLet(ev: Evaluator, st: Store, t: string): Outcome<Value> {
    match MatchLet(t)
    case None => Done(st, NoneV)
    case Some((n, e)) =>
      match EvalExpr(ev, st.vars, e)
      case Failure(err) => Raised(st, err)
      case Success(v) => Done(Store(Bind(st.vars, n, v), st.out), NoneV)
  }

  /** `handle_print_statement`. */
  function HandlePrint(ev: Evaluator, st: Store, t: string): Outcome<Value> {
    match MatchPrint(t)
    case None => Done(st, NoneV)
    case Some(e) =>
      match EvalExpr(ev, st.vars, e)
      case Failure(err) => Raised(st, err)
      case Success(v) => Done(Store(st.vars, st.out + [Str(v)]), NoneV)
  }

  /** `handle_if_statement`. */
  function HandleIf(ev: Evaluator, st: Store, t: string): Outcome<Value> {
    match MatchIf(t)
    case None => Done(st, NoneV)
    case Some(c) =>
      match EvalExpr(ev, st.vars, c)
      case Failure(err) => Raised(st, err)
      case Success(v) => Done(st, v)
  }

  /** `parse_line`: the Python object it returns is a `Value`; `None` for
      blank lines, comments, assignments and prints, `True` for `else`,
      the condition's value for `if`, and the stripped text otherwise. */
  function ParseLine(ev: Evaluator, st: Store, raw: string): Outcome<Value> {
    var t := Strip(raw);
    match Classify(t)
    case Blank => Done(st, NoneV)
    case LetStmt => HandleLet(ev, st, t)
    case PrintStmt => HandlePrint(ev, st, t)
    case IfStmt => HandleIf(ev, st, t)
    case ElseStmt => Done(st, BoolV(true))
    case Passthrough => Done(st, StrV(t))
  }

  /** A blank or comment line yields `None` and changes nothing. */
  lemma BlankLineNoEffect(ev: Evaluator, st: Store, raw: string)
    requires Strip(raw) == [] || "#" <= Strip(raw)
    ensures ParseLine(ev, st, raw) == Done(st, NoneV)
  {
  }

  /** A `let` line binds its name to the value of its expression and
      leaves every other binding and the output alone; a `let` line
      without the pattern's shape changes nothing; a failed evaluation
      raises before anything is written. */
  lemma LetLine(ev: Evaluator, st: Store, raw: string)
    requires Classify(Strip(raw)) == LetStmt
    ensures MatchLet(Strip(raw)).None? ==> ParseLine(ev, st, raw) == Done(st, NoneV)
    ensures MatchLet(Strip(raw)).Some? ==>
      var (n, e) := MatchLet(Strip(raw)).value;
      var r := ParseLine(ev, st, raw);
      match EvalExpr(ev, st.vars, e)
      case Failure(err) => r == Raised(st, err)
      case Success(v) =>
        && r.Done? && r.value == NoneV && r.store.out == st.out
        && forall m: Name :: Lookup(r.store.vars, m) == if m == n then Some(v) else Lookup(st.vars, m)
  {
    var t := Strip(raw);
    assert ParseLine(ev, st, raw) == HandleLet(ev, st, t);
    if MatchLet(t).Some? {
      var (n, e) := MatchLet(t).value;
      if EvalExpr(ev, st.vars, e).Success? {
        var v := EvalExpr(ev, st.vars, e).value;
        assert HandleLet(ev, st, t) == Done(Store(Bind(st.vars, n, v), st.out), NoneV);
        forall m: Name ensures Lookup(Bind(st.vars, n, v), m) == if m == n then Some(v) else Lookup(st.vars, m) {
          LookupBind(st.vars, n, v, m);
        }
      }
    }
  }

  /** A `print` line never changes the variables; with the pattern's shape
      it appends exactly `str()` of its value to the output, without it
      nothing. */
  lemma PrintLine(ev: Evaluator, st: Store, raw: string)
    requires Classify(Strip(raw)) == PrintStmt
    ensures ParseLine(ev, st, raw).store.vars == st.vars
    ensures MatchPrint(Strip(raw)).None? ==> ParseLine(ev, st, raw) == Done(st, NoneV)
    ensures MatchPrint(Strip(raw)).Some? ==>
      match EvalExpr(ev, st.vars, MatchPrint(Strip(raw)).value)
      case Failure(err) => ParseLine(ev, st, raw) == Raised(st, err)
      case Success(v) => ParseLine(ev, st, raw) == Done(Store(st.vars, st.out + [Str(v)]), NoneV)
  {
  }

  /** An `if` line returns the value of the text between "if " and the last
      ':' without touching the store, and `None` without the shape. */
  lemma IfLine(ev: Evaluator, st: Store, raw: string)
    requires Classify(Strip(raw)) == IfStmt
    ensures ParseLine(ev, st, raw).store == st
    ensures MatchIf(Strip(raw)).None? ==> ParseLine(ev, st, raw) == Done(st, NoneV)
    ensures MatchIf(Strip(raw)).Some? ==>
      match EvalExpr(ev, st.vars, MatchIf(Strip(raw)).value)
      case Failure(err) => ParseLine(ev, st, raw) == Raised(st, err)
      case Success(v) => ParseLine(ev, st, raw) == Done(st, v)
  {
  }

  /** What `parse_line` may change: only a `let` line changes the
      variables, only a `print` line the output, by one line at most, and a
      line that raises changes nothing. */
  lemma ParseLineFrame(ev: Evaluator, st: Store, raw: string)
    ensures var r := ParseLine(ev, st, raw);
      && (r.Raised? ==> r.store == st)
      && (Classify(Strip(raw)) != LetStmt ==> r.store.vars == st.vars)
      && (Classify(Strip(raw)) != PrintStmt ==> r.store.out == st.out)
      && st.out <= r.store.out && |r.store.out| <= |st.out| + 1
  {
    match Classify(Strip(raw))
    case LetStmt => LetLine(ev, st, raw);
    case PrintStmt => PrintLine(ev, st, raw);
    case IfStmt => IfLine(ev, st, raw);
    case _ =>
  }

  /** The stripped text is returned only for a line that is no statement;
      such a text never starts with a keyword, so it is never "else". */
  lemma PassthroughText(ev: Evaluator, st: Store, raw: string, s: string)
    requires ParseLine(ev, st, raw) == Done(st, StrV(s))
    requires Classify(Strip(raw)) != IfStmt
    ensures Classify(Strip(raw)) == Passthrough && s == Strip(raw)
    ensures s != "else"
  {
  }

  /** The only lines that return something other than `None` are `if`,
      `else` and passthrough lines, and none of them changes the store;
      parsing such a line again gives the same result. */
  lemma {:induction false} ValueLineRepeats(ev: Evaluator, st: Store, raw: string)
    requires ParseLine(ev, st, raw).Done? && ParseLine(ev, st, raw).value != NoneV
    ensures ParseLine(ev, st, raw).store == st
    ensures ParseLine(ev, ParseLine(ev, st, raw).store, raw) == ParseLine(ev, st, raw)
  {
    var k := Classify(Strip(raw));
    assert k != LetStmt && k != PrintStmt by {
      if k == LetStmt {
        LetLine(ev, st, raw);
      } else if k == PrintStmt {
        PrintLine(ev, st, raw);
      }
    }
    ParseLineFrame(ev, st, raw);
  }

  // ---------------------------------------------------------------------
  // The loop of `run`

  /** The result of parsing a line again inside `run`: its value is
      dropped. */
  function Again(r: Outcome<Value>, f: Flags): Outcome<Flags> {
    match r
    case Raised(s, err) => Raised(s, err)
    case Done(s, _) => Done(s, f)
  }

  /** One iteration of the loop of `run` on the raw line `raw`. The line is
      parsed first, whatever the flags say; then a `bool` result opens a
      block, a result equal to "else" inside a block negates the
      condition, a line inside a block is parsed once more when the
      condition holds and ends the block unless it starts with a space,
      and a truthy result outside a block makes the line be parsed again. */
  function Step(ev: Evaluator, st: Store, f: Flags, raw: string): Outcome<Flags> {
    match ParseLine(ev, st, raw)
    case Raised(s, err) => Raised(s, err)
    case Done(s, parsed) =>
      if parsed.BoolV? then Done(s, Flags(true, parsed.b))
      else if parsed == StrV("else") && f.inIfBlock then Done(s, Flags(true, !f.conditionResult))
      else if f.inIfBlock then
        var f' := Flags(StartsWithSpace(raw), f.conditionResult);
        if f.conditionResult then Again(ParseLine(ev, s, raw), f') else Done(s, f')
      else if Truthy(parsed) then Again(ParseLine(ev, s, raw), f)
      else Done(s, f)
  }

  /** The loop of `run` over `lines`, from store `st` and flags `f`; an
      exception ends it. */
  function Run(ev: Evaluator, st: Store, f: Flags, lines: seq<string>): Outcome<Flags>
    decreases |lines|
  {
    if lines == [] then Done(st, f)
    else
      match Step(ev, st, f, lines[0])
      case Raised(s, err) => Raised(s, err)
      case Done(s, f') => Run(ev, s, f', lines[1..])
  }

  /** `run` on a script: a fresh interpreter, both flags false. */
  function RunScript(ev: Evaluator, lines: seq<string>): Outcome<Flags> {
    Run(ev, Store([], []), Flags(false, false), lines)
  }

  /** The line end that `readlines` leaves on a line does not change what
      `parse_line` does with it, since `strip` drops it. */
  lemma ParseLineIgnoresLineEnd(ev: Evaluator, st: Store, raw: string)
    ensures ParseLine(ev, st, raw + "\n") == ParseLine(ev, st, raw)
  {
    StripTrailingSpace(raw, '\n');
  }

  /** Nor does it change an iteration of the loop of `run`: it never
      starts the line. */
  lemma StepIgnoresLineEnd(ev: Evaluator, st: Store, f: Flags, raw: string)
    ensures Step(ev, st, f, raw + "\n") == Step(ev, st, f, raw)
  {
    ParseLineIgnoresLineEnd(ev, st, raw);
    assert StartsWithSpace(raw + "\n") == StartsWithSpace(raw) by {
      if raw != [] {
        assert (raw + "\n")[0] == raw[0];
      }
    }
    var r := ParseLine(ev, st, raw);
    if r.Done? {
      ParseLineIgnoresLineEnd(ev, r.store, raw);
    }
  }

  /** `run` over the lines as `readlines` gives them, each with or without
      its line end, does what it does over the bare lines. */
  lemma {:induction false} RunIgnoresLineEnds(ev: Evaluator, st: Store, f: Flags, read: seq<string>, lines: seq<string>)
    requires |read| == |lines|
    requires forall i :: 0 <= i < |lines| ==> read[i] == lines[i] || read[i] == lines[i] + "\n"
    ensures Run(ev, st, f, read) == Run(ev, st, f, lines)
    decreases |lines|
  {
    if lines != [] {
      if read[0] != lines[0] {
        StepIgnoresLineEnd(ev, st, f, lines[0]);
      }
      match Step(ev, st, f, lines[0])
      case Raised(_, _) =>
      case Done(s, f') =>
        RunIgnoresLineEnds(ev, s, f', read[1..], lines[1..]);
    }
  }

  /** Any line whose parse result is a `bool` (among them every `else`
      line) leaves `run` inside a block whose condition is that `bool`. */
  lemma BoolLineOpensBlock(ev: Evaluator, st: Store, f: Flags, raw: string, s: Store, b: bool)
    requires ParseLine(ev, st, raw) == Done(s, BoolV(b))
    ensures Step(ev, st, f, raw) == Done(s, Flags(true, b))
  {
  }

  /** An `else` line yields `True`, so it sets the condition to true,
      inside a block or not; it never negates it. */
  lemma ElseLineSetsTrue(ev: Evaluator, st: Store, f: Flags, raw: string)
    requires Classify(Strip(raw)) == ElseStmt
    ensures Step(ev, st, f, raw) == Done(st, Flags(true, true))
  {
  }

  /** The negation is reached only by an `if` line inside a block whose
      condition evaluates to the string "else". */
  lemma NegationOnlyFromElseString(ev: Evaluator, st: Store, f: Flags, raw: string)
    requires f.inIfBlock
    requires ParseLine(ev, st, raw).Done? && ParseLine(ev, st, raw).value == StrV("else")
    ensures Classify(Strip(raw)) == IfStmt
    ensures MatchIf(Strip(raw)).Some?
    ensures EvalExpr(ev, st.vars, MatchIf(Strip(raw)).value) == Success(StrV("else"))
    ensures Step(ev, st, f, raw) == Done(st, Flags(true, !f.conditionResult))
  {
    ElseFromIfLine(ev, st, raw);
  }

  /** Only a matched `if` line whose condition evaluates to "else" yields
      "else"; it leaves the store as it was. */
  lemma ElseFromIfLine(ev: Evaluator, st: Store, raw: string)
    requires ParseLine(ev, st, raw).Done? && ParseLine(ev, st, raw).value == StrV("else")
    ensures Classify(Strip(raw)) == IfStmt
    ensures MatchIf(Strip(raw)).Some?
    ensures EvalExpr(ev, st.vars, MatchIf(Strip(raw)).value) == Success(StrV("else"))
    ensures ParseLine(ev, st, raw).store == st
  {
    ValueLineRepeats(ev, st, raw);
    var t := Strip(raw);
    if Classify(t) != IfStmt {
      PassthroughText(ev, st, raw, "else");
    }
    assert ParseLine(ev, st, raw) == HandleIf(ev, st, t);
  }

  /** Inside a block, a line that yields neither a `bool` nor "else" is
      parsed once in any case and once more iff the condition holds; the
      block then goes on iff the raw line starts with a space. */
  lemma BlockLine(ev: Evaluator, st: Store, f: Flags, raw: string, s: Store, p: Value)
    requires f.inIfBlock
    requires ParseLine(ev, st, raw) == Done(s, p) && !p.BoolV? && p != StrV("else")
    ensures var f' := Flags(StartsWithSpace(raw), f.conditionResult);
      Step(ev, st, f, raw) ==
        if f.conditionResult then Again(ParseLine(ev, s, raw), f') else Done(s, f')
  {
  }

  /** Outside a block, a line that does not yield a `bool` takes effect
      exactly once: parsing it again changes nothing, and the flags stay. */
  lemma {:induction false} OutsideBlockOnce(ev: Evaluator, st: Store, f: Flags, raw: string)
    requires !f.inIfBlock
    requires ParseLine(ev, st, raw).Done? && !ParseLine(ev, st, raw).value.BoolV?
    ensures Step(ev, st, f, raw) == Done(ParseLine(ev, st, raw).store, f)
  {
    var p := ParseLine(ev, st, raw).value;
    if Truthy(p) {
      ValueLineRepeats(ev, st, raw);
    }
  }

  /** A `print` line inside a block prints even when the condition is
      false, and prints twice when it is true. */
  lemma PrintInBlock(ev: Evaluator, st: Store, f: Flags, raw: string, e: string, v: Value)
    requires f.inIfBlock && Classify(Strip(raw)) == PrintStmt
    requires MatchPrint(Strip(raw)) == Some(e) && EvalExpr(ev, st.vars, e) == Success(v)
    ensures Step(ev, st, f, raw) ==
      Done(Store(st.vars, st.out + if f.conditionResult then [Str(v), Str(v)] else [Str(v)]),
           Flags(StartsWithSpace(raw), f.conditionResult))
  {
    PrintLine(ev, st, raw);
    var s := Store(st.vars, st.out + [Str(v)]);
    PrintLine(ev, s, raw);
    assert st.out + [Str(v)] + [Str(v)] == st.out + [Str(v), Str(v)];
  }

  /** A `let` line inside a block with a true condition is evaluated twice,
      the second time against the binding the first one made. */
  lemma LetInTrueBlock(ev: Evaluator, st: Store, f: Flags, raw: string, n: Name, e: string, v: Value)
    requires f.inIfBlock && f.conditionResult && Classify(Strip(raw)) == LetStmt
    requires MatchLet(Strip(raw)) == Some((n, e)) && EvalExpr(ev, st.vars, e) == Success(v)
    ensures var once := Bind(st.vars, n, v);
      var again := EvalExpr(ev, once, e);
      Step(ev, st, f, raw) ==
        if again.Failure? then Raised(Store(once, st.out), again.error)
        else Done(Store(Bind(st.vars, n, again.value), st.out), Flags(StartsWithSpace(raw), true))
  {
    var once := Bind(st.vars, n, v);
    var s1 := Store(once, st.out);
    assert ParseLine(ev, st, raw) == Done(s1, NoneV);
    BlockLine(ev, st, f, raw, s1, NoneV);
    var again := EvalExpr(ev, once, e);
    if again.Success? {
      BindTwice(st.vars, n, v, again.value);
      assert ParseLine(ev, s1, raw) == Done(Store(Bind(st.vars, n, again.value), st.out), NoneV);
    } else {
      assert ParseLine(ev, s1, raw) == Raised(s1, again.error);
    }
  }

  // ---------------------------------------------------------------------
  // Properties of whole runs

  /** Running two pieces of a script one after the other is running the
      whole script. */
  lemma {:induction false} RunAppend(ev: Evaluator, st: Store, f: Flags, a: seq<string>, b: seq<string>)
    ensures Run(ev, st, f, a + b) ==
      match Run(ev, st, f, a)
      case Raised(s, err) => Raised(s, err)
      case Done(s, f') => Run(ev, s, f', b)
    decreases |a|
  {
    if a == [] {
      assert a + b == b;
    } else {
      assert (a + b)[0] == a[0];
      assert (a + b)[1..] == a[1..] + b;
      match Step(ev, st, f, a[0])
      case Raised(s, err) =>
      case Done(s, f') => RunAppend(ev, s, f', a[1..], b);
    }
  }

  /** One step of `run` only appends to the output. */
  lemma StepOutputGrows(ev: Evaluator, st: Store, f: Flags, raw: string)
    ensures st.out <= Step(ev, st, f, raw).store.out
  {
    ParseLineAppends(ev, st, raw);
    StepStore(ev, st, f, raw);
    var r := ParseLine(ev, st, raw);
    if r.Done? {
      ParseLineAppends(ev, r.store, raw);
      PrefixTransitive(st.out, r.store.out, ParseLine(ev, r.store, raw).store.out);
    }
  }

  /** A step ends in the store of its first parse or of its second. */
  lemma StepStore(ev: Evaluator, st: Store, f: Flags, raw: string)
    ensures var r := ParseLine(ev, st, raw);
      var s := Step(ev, st, f, raw).store;
      s == r.store || (r.Done? && s == ParseLine(ev, r.store, raw).store)
  {
    match ParseLine(ev, st, raw)
    case Raised(_, _) =>
    case Done(s, p) =>
      var again := ParseLine(ev, s, raw);
      if p.BoolV? || (p == StrV("else") && f.inIfBlock) {
        assert Step(ev, st, f, raw).store == s;
      } else if f.inIfBlock {
        BlockLine(ev, st, f, raw, s, p);
        AgainStore(again, Flags(StartsWithSpace(raw), f.conditionResult));
      } else {
        assert Step(ev, st, f, raw) == if Truthy(p) then Again(again, f) else Done(s, f);
        AgainStore(again, f);
      }
  }

  lemma AgainStore(r: Outcome<Value>, g: Flags)
    ensures Again(r, g).store == r.store
  {
  }

  lemma ParseLineAppends(ev: Evaluator, st: Store, raw: string)
    ensures st.out <= ParseLine(ev, st, raw).store.out
  {
    ParseLineFrame(ev, st, raw);
  }

  lemma PrefixTransitive(a: seq<string>, b: seq<string>, c: seq<string>)
    requires a <= b && b <= c
    ensures a <= c
  {
    assert c[..|a|] == b[..|a|];
  }

  /** Output is only ever appended to. */
  lemma {:induction false} RunOutputGrows(ev: Evaluator, st: Store, f: Flags, lines: seq<string>)
    ensures st.out <= Run(ev, st, f, lines).store.out
    decreases |lines|
  {
    if lines != [] {
      StepOutputGrows(ev, st, f, lines[0]);
      match Step(ev, st, f, lines[0])
      case Raised(s, err) =>
      case Done(s, f') => RunOutputGrows(ev, s, f', lines[1..]);
    }
  }

  /** One step of `run` keeps the variables' names distinct. */
  lemma StepKeepsNamesDistinct(ev: Evaluator, st: Store, f: Flags, raw: string)
    requires DistinctNames(st.vars)
    ensures DistinctNames(Step(ev, st, f, raw).store.vars)
  {
    ParseLineKeepsNamesDistinct(ev, st, raw);
    var r := ParseLine(ev, st, raw);
    if r.Done? {
      ParseLineKeepsNamesDistinct(ev, r.store, raw);
    }
  }

  /** The variables keep distinct names through a whole run. */
  lemma {:induction false} RunKeepsNamesDistinct(ev: Evaluator, st: Store, f: Flags, lines: seq<string>)
    requires DistinctNames(st.vars)
    ensures DistinctNames(Run(ev, st, f, lines).store.vars)
    decreases |lines|
  {
    if lines != [] {
      StepKeepsNamesDistinct(ev, st, f, lines[0]);
      match Step(ev, st, f, lines[0])
      case Raised(s, err) =>
      case Done(s, f') => RunKeepsNamesDistinct(ev, s, f', lines[1..]);
    }
  }

  lemma ParseLineKeepsNamesDistinct(ev: Evaluator, st: Store, raw: string)
    requires DistinctNames(st.vars)
    ensures DistinctNames(ParseLine(ev, st, raw).store.vars)
  {
    var t := Strip(raw);
    if Classify(t) == LetStmt {
      if MatchLet(t).Some? {
        var (n, e) := MatchLet(t).value;
        if EvalExpr(ev, st.vars, e).Success? {
          var v := EvalExpr(ev, st.vars, e).value;
          BindDistinct(st.vars, n, v);
          assert ParseLine(ev, st, raw).store.vars == Bind(st.vars, n, v);
        }
      }
    } else {
      ParseLineFrame(ev, st, raw);
    }
  }

  /** A step on a line that is not a `let` line keeps the variables. */
  lemma StepWithoutLet(ev: Evaluator, st: Store, f: Flags, raw: string)
    requires Classify(Strip(raw)) != LetStmt
    ensures Step(ev, st, f, raw).store.vars == st.vars
  {
    ParseLineFrame(ev, st, raw);
    var r := ParseLine(ev, st, raw);
    if r.Done? {
      ParseLineFrame(ev, r.store, raw);
    }
  }

  /** A script without `let` lines never changes the variables. */
  lemma {:induction false} RunWithoutLet(ev: Evaluator, st: Store, f: Flags, lines: seq<string>)
    requires forall i :: 0 <= i < |lines| ==> Classify(Strip(lines[i])) != LetStmt
    ensures Run(ev, st, f, lines).store.vars == st.vars
    decreases |lines|
  {
    if lines != [] {
      StepWithoutLet(ev, st, f, lines[0]);
      match Step(ev, st, f, lines[0])
      case Raised(s, err) =>
      case Done(s, f') =>
        assert forall i :: 0 <= i < |lines[1..]| ==> lines[1..][i] == lines[i + 1];
        RunWithoutLet(ev, s, f', lines[1..]);
    }
  }
}
