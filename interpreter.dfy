/** The interpreter object: it owns the variables, which its handlers
    update in place, and the lines it has printed. Each method is proved to
    do what the function of the same statement in `Semantics` says. */
module Interpreter {
  import opened Wrappers
  import opened Text
  import opened Values
  import opened Statements
  import opened Semantics

  /** The outcome a method's result describes, given the state it left. */
  function Settle<T>(st: Store, r: Result<T, EvalError>): Outcome<T> {
    match r
    case Success(v) => Done(st, v)
    case Failure(err) => Raised(st, err)
  }

  class FloInterpreter {
    /** Python's `eval`, which the interpreter calls but does not define. */
    const eval: Evaluator
    /** `self.variables`. */
    var variables: Env
    /** What `print` has written to standard output, one entry per line. */
    var output: seq<string>

    /** The names of `self.variables` are distinct, as dict keys are, so
        each entry is what its name reads (`Semantics.LookupEntry`). */
    ghost predicate Valid()
      reads this
    {
      DistinctNames(variables)
    }

    function State(): Store
      reads this
    {
      Store(variables, output)
    }

    /** `__init__`: no variables, nothing printed yet. */
    constructor (eval: Evaluator)
      ensures Valid() && this.eval == eval
      ensures variables == [] && output == []
    {
      this.eval := eval;
      variables := [];
      output := [];
    }

    /** `evaluate_expression`: rewrites the text once per variable, in
        insertion order, then evaluates it. */
    method EvaluateExpression(expr: string) returns (r: Result<Value, EvalError>)
      ensures r == EvalExpr(eval, variables, expr)
    {
      var e := expr;
      var i := 0;
      while i < |variables|
        invariant 0 <= i <= |variables|
        invariant Substitute(variables[i..], e) == Substitute(variables, expr)
      {
        e := ReplaceAll(e, variables[i].0, Str(variables[i].1));
        i := i + 1;
      }
      assert variables[i..] == [];
      match eval(e)
      case Success(v) => r := Success(v);
      case Failure(cause) => r := Failure(EvalError(e, cause));
    }

    /** `handle_variable_assignment` on a stripped line. */
    method HandleVariableAssignment(line: string) returns (r: Result<Value, EvalError>)
      requires Valid()
      modifies this
      ensures Valid()
      ensures Settle(State(), r) == HandleLet(eval, old(State()), line)
    {
      var m := MatchLet(line);
      if m.Some? {
        var (name, e) := m.value;
        var value := EvaluateExpression(e);
        if value.Failure? {
          return Failure(value.error);
        }
        BindDistinct(variables, name, value.value);
        variables := Bind(variables, name, value.value);
      }
      r := Success(NoneV);
    }

    /** `handle_print_statement` on a stripped line. */
    method HandlePrintStatement(line: string) returns (r: Result<Value, EvalError>)
      requires Valid()
      modifies this`output
      ensures Valid()
      ensures Settle(State(), r) == HandlePrint(eval, old(State()), line)
    {
      var m := MatchPrint(line);
      if m.Some? {
        var value := EvaluateExpression(m.value);
        if value.Failure? {
          return Failure(value.error);
        }
        output := output + [Str(value.value)];
      }
      r := Success(NoneV);
    }

    /** `handle_if_statement` on a stripped line: the condition's value,
        or `None` when the line lacks the `if ...:` shape. */
    method HandleIfStatement(line: string) returns (r: Result<Value, EvalError>)
      ensures Settle(State(), r) == HandleIf(eval, State(), line)
    {
      var m := MatchIf(line);
      if m.Some? {
        r := EvaluateExpression(m.value);
      } else {
        r := Success(NoneV);
      }
    }

    /** `parse_line` on a raw line; `handle_else_statement` is its `True`. */
    method ParseLine(line: string) returns (r: Result<Value, EvalError>)
      requires Valid()
      modifies this
      ensures Valid()
      ensures Settle(State(), r) == Semantics.ParseLine(eval, old(State()), line)
    {
      var t := Strip(line);
      if t == [] || "#" <= t {
        r := Success(NoneV);
      } else if "let" <= t {
        r := HandleVariableAssignment(t);
      } else if "print" <= t {
        r := HandlePrintStatement(t);
      } else if "if" <= t {
        r := HandleIfStatement(t);
      } else if "else" <= t {
        r := Success(BoolV(true));
      } else {
        r := Success(StrV(t));
      }
    }

    /** `run` on the lines of a script (already read from the file): the
        state it leaves and the exception that ended it, if any, are those
        of `Semantics.Run` from the state it started in. */
    method Run(lines: seq<string>) returns (err: Option<EvalError>)
      requires Valid()
      modifies this
      ensures Valid()
      ensures var r := Semantics.Run(eval, old(State()), Flags(false, false), lines);
        && State() == r.store
        && (err.None? <==> r.Done?)
        && (r.Raised? ==> err == Some(r.err))
    {
      var inIfBlock, conditionResult := false, false;
      for i := 0 to |lines|
        invariant Valid()
        invariant Semantics.Run(eval, old(State()), Flags(false, false), lines) ==
          Semantics.Run(eval, State(), Flags(inIfBlock, conditionResult), lines[i..])
      {
        var line := lines[i];
        ghost var before, flags := State(), Flags(inIfBlock, conditionResult);
        assert lines[i..][0] == line && lines[i..][1..] == lines[i + 1..];
        var parsed := ParseLine(line);
        if parsed.Failure? {
          return Some(parsed.error);
        }
        var p := parsed.value;
        if p.BoolV? {
          conditionResult := p.b;
          inIfBlock := true;
        } else if p == StrV("else") && inIfBlock {
          conditionResult := !conditionResult;
        } else if inIfBlock {
          if conditionResult {
            var again := ParseLine(line);
            if again.Failure? {
              return Some(again.error);
            }
          }
          if !StartsWithSpace(line) {
            inIfBlock := false;
          }
        } else if Truthy(p) {
          var again := ParseLine(line);
          if again.Failure? {
            return Some(again.error);
          }
        }
        assert Step(eval, before, flags, line) == Done(State(), Flags(inIfBlock, conditionResult));
      }
      err := None;
    }
  }
}
