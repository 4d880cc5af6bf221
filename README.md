# Flo interpreter, modelled in Dafny

Flo is a small line-oriented scripting language. Its interpreter,
`FloInterpreter` in `flointerpreter.py`, reads a script, strips each line and
classifies it by its prefix:

- `let NAME = EXPR` binds a variable;
- `print EXPR` writes a value;
- `if COND:` opens a one-level block when its condition is a `bool`;
- `else` is the other statement keyword;
- any other non-blank, non-comment line is handed back to the loop as text.

Expressions are evaluated by substituting every variable's text for its name,
in the dictionary's insertion order, and then passing the result to Python's
`eval`. The loop of `run` keeps two flags, `in_if_block` and
`condition_result`. It decides from them whether a line inside a block is
parsed again, and when the block ends: at the first line that does not start
with a space and whose parse is neither a `bool` nor the string "else".

The project has seven modules:

- `Wrappers` (`wrappers.dfy`): `Option` and `Result`.
- `Text` (`text.dfy`): Python's `str.strip`, `str.replace` with the
  split/join reading of it, the `\w` class, and variable names.
- `Values` (`values.dfy`): the Python values a line can produce, their
  `str()` and their truthiness.
- `Statements` (`statements.dfy`): the classification in `parse_line`, and
  the three regular expressions `let (\w+) = (.+)`, `print (.+)` and
  `if (.+):` with `re.match`'s anchoring, greedy matching and backtracking.
- `Semantics` (`semantics.dfy`): the variable environment, `evaluate_expression`,
  the handlers, `parse_line` and one iteration of the loop of `run`, all as
  functions of a `Store`. The store is the variables plus the lines printed
  so far. The module also holds the properties proved about them.
- `Interpreter` (`interpreter.dfy`): the class `FloInterpreter`. It has
  mutable `variables` and `output`, its methods change them in place, and
  each method's contract ties it to the matching function in `Semantics`.
  `evaluate_expression` keeps its substitution loop.
- `Scenarios` (`scenarios.dfy`): whole scripts run through the model.

Python's `eval` is an `Evaluator` parameter: a function from the substituted
text to a `Value` or to the message of the `Exception` it raises. The
interpreter object holds it as a constant. `parse_line` returns a Python
object, modelled as a `Value`:

- `NoneV` for blank lines, comments, assignments and prints;
- `NoneV` for an `if` line without the shape `if (.+):`;
- `BoolV(true)` for `else`;
- the condition's value for a matched `if`, which is `NoneV` when the
  condition evaluates to `None`;
- `StrV(line)` for any other line.

An exception ends `run`. `Outcome.Raised` carries the store as it stood when
the exception was raised. `handle_else_statement` has no state and no
branch; it is the `ElseStmt` case of `ParseLine`.

The loop of `run` does not do all that its own comments suggest. The
comment at `flointerpreter.py:85` says code inside a block runs only when the
condition is true. The branch at `flointerpreter.py:82-83` looks like the
point where `else` negates the condition. The model follows what the code
does:

- A body line inside a block whose condition is false still produces its
  effect once. The reason is that `flointerpreter.py:76` parses every line
  before the flags are looked at (`Semantics.PrintInBlock`). Under a true
  condition the line is parsed again at `flointerpreter.py:87`, so its effect
  happens twice.
- `else` parses to `True` (`flointerpreter.py:57`), which goes through the
  `bool` branch at `flointerpreter.py:79-81`. Inside a block it therefore sets
  the condition to true instead of negating it
  (`Semantics.ElseLineSetsTrue`). Outside a block it opens one.
- An `if` line whose condition is not a `bool` opens no block. Outside a
  block a truthy value such as `5` reaches `flointerpreter.py:91-93`, which
  parses the line a second time; that parse changes nothing, and both flags
  stay as they were (`Semantics.IfLine`, `Semantics.OutsideBlockOnce`).
  Inside a block the line is treated as a body line
  (`Semantics.BlockLine`).
- An unindented line whose parse is a `bool`, such as `else`, does not end
  a block: `flointerpreter.py:79-81` keeps `in_if_block` true, and only the
  branch at `flointerpreter.py:84-90` tests for the leading space
  (`Semantics.BoolLineOpensBlock`).
- The negation at `flointerpreter.py:82-83` is reached only by an `if` line
  whose condition evaluates to the string `"else"`
  (`Semantics.NegationOnlyFromElseString`).
- So the script `let x = 3`, `if x > 1:`, ` print x`, `else`, ` print 0`
  prints `3 3 0 0` (`Scenarios.IfElseWithTrueCondition`). With `let x = 0`
  it prints `0 0 0` (`Scenarios.IfElseWithFalseCondition`).

## Model

| member | source | states |
|---|---|---|
| Text.IsSpace | flointerpreter.py:11 | the characters `str.isspace` accepts, which `strip` removes: ASCII whitespace, the separators U+001C to U+001F, and the Unicode spaces and line separators |
| Text.IsWordChar | flointerpreter.py:35 | the characters of the `\w` class in `let (\w+) = (.+)`: ASCII letters, digits and `_` |
| Text.StartsWithSpace | flointerpreter.py:89 | `line.startswith(" ")` on the raw line, newline included: the only test that ends a block |
| Text.LStrip | flointerpreter.py:11 | the result is a suffix of the input; everything dropped is whitespace; the result does not start with whitespace |
| Text.RStrip | flointerpreter.py:11 | the result is a prefix of the input; everything dropped is whitespace; the result does not end with whitespace |
| Text.Strip | flointerpreter.py:11 | the stripped line is empty or starts and ends with non-whitespace |
| Text.StripIsSlice | flointerpreter.py:11 | the stripped line is the slice of the line that starts right after its leading whitespace |
| Text.StripDropsSpaces | flointerpreter.py:11 | only whitespace lies before and after that slice |
| Text.StripIdempotent | flointerpreter.py:11 | stripping a stripped line changes nothing |
| Text.StripTrailingSpace | flointerpreter.py:11 | a trailing whitespace character, such as the newline `readlines` keeps, does not change the stripped line |
| Text.ReplaceAll | flointerpreter.py:63 | `str.replace` with a non-empty pattern: a left-to-right scan that replaces each non-overlapping occurrence and resumes after it, so replacement text is never rescanned |
| Text.Split | flointerpreter.py:63 | splitting yields at least one piece, and the first piece is a prefix of the text |
| Text.SplitPiecesFree | flointerpreter.py:63 | no piece of the split contains the separator |
| Text.SplitLeftmost | flointerpreter.py:63 | the first piece ends at the leftmost occurrence of the separator: none starts inside it, and one starts right after it unless it is the whole text |
| Text.SplitJoinRoundTrip | flointerpreter.py:63 | joining the pieces with the separator gives back the text |
| Text.ReplaceAllIsJoinSplit | flointerpreter.py:63 | `str.replace` is splitting on the pattern and joining with the replacement |
| Text.ReplaceAllSelf | flointerpreter.py:63 | replacing a pattern by itself leaves the text unchanged |
| Text.ReplaceAllAbsent | flointerpreter.py:63 | replacing a pattern that does not occur leaves the text unchanged |
| Text.ReplaceAllUnchanged | flointerpreter.py:63 | `str.replace` leaves a text unchanged iff the pattern does not occur in it or is replaced by itself |
| Text.ReplaceAllChanges | flointerpreter.py:63 | a pattern that occurs, replaced by a different text, changes the text |
| Text.ReplaceAllLength | flointerpreter.py:63 | a replacement no shorter than the pattern never shortens the text, and one no longer never lengthens it |
| Values.Str | flointerpreter.py:47 | `str()`: `True`/`False`, an integer in decimal with a leading `-` when negative, a string itself, `None`; any other value carries its own text |
| Values.Truthy | flointerpreter.py:92 | Python's truth test: a `bool` itself, a non-zero integer, a non-empty string, never `None`; any other value carries its own truthiness |
| Values.Decimal | flointerpreter.py:63 | `str()` of a non-negative integer is a non-empty digit string without a leading zero |
| Values.DecimalRoundTrip | flointerpreter.py:63 | reading the digits of `str(n)` gives back `n` |
| Statements.IsBlankOrComment | flointerpreter.py:12 | the test `line.startswith("#") or line == ""` on the stripped line |
| Statements.Classify | flointerpreter.py:11-31 | each kind holds iff the stripped line passes that prefix test and fails every earlier one: blank or `#`, then `let`, `print`, `if`, `else`; the text is passed through otherwise |
| Statements.WordRun | flointerpreter.py:35 | the greedy `\w+` takes the longest run of word characters |
| Statements.LineRun | flointerpreter.py:43 | the greedy `.+` runs to the first newline or the end |
| Statements.LastColon | flointerpreter.py:51 | the index found is the last ':' of the text, or -1 when there is none |
| Statements.MatchIf | flointerpreter.py:51 | `re.match(r"if (.+):")`: the line must start with `if `; the group runs up to the last `:` on the first line after it, and there is no match when that colon is missing or is the first character |
| Statements.MatchLet | flointerpreter.py:35 | a match means the line starts with `let NAME = EXPR`, where EXPR is non-empty and runs to the end of the first line |
| Statements.MatchLetComplete | flointerpreter.py:35 | every line `let NAME = EXPR` matches, with exactly that name and expression |
| Statements.MatchPrint | flointerpreter.py:43 | a match means the line starts with `print EXPR`, where EXPR is non-empty and runs to the end of the first line |
| Statements.MatchPrintComplete | flointerpreter.py:43 | every line `print EXPR` matches, with exactly that expression |
| Statements.MatchIfSound | flointerpreter.py:51 | a match means the line starts with `if COND:`, where COND is non-empty and the ':' after it is the last one on the first line |
| Statements.MatchIfComplete | flointerpreter.py:51 | every line `if COND:` with no later ':' on its line matches, giving COND |
| Semantics.Lookup | flointerpreter.py:63 | `self.variables[var]`: the value of the first entry with that name, or none |
| Semantics.Bind | flointerpreter.py:39 | `self.variables[var_name] = value`: replaces the entry in place when the name is present, appends it otherwise |
| Semantics.LookupEntry | flointerpreter.py:39 | with distinct names, as dict keys are, each entry is what a lookup of its name reads |
| Semantics.LookupBind | flointerpreter.py:39 | after an assignment the name reads the new value and every other name reads what it read before |
| Semantics.BindShape | flointerpreter.py:39 | a new name goes last; re-assigning a name keeps its position and leaves every other entry alone |
| Semantics.BindDistinct | flointerpreter.py:39 | assignment keeps the variable names distinct, as dictionary keys are |
| Semantics.BindTwice | flointerpreter.py:39 | assigning a name twice equals assigning it the second value |
| Semantics.Substitute | flointerpreter.py:62-63 | the text after `str.replace` of each name by the `str()` of its value, one variable after the other in insertion order |
| Semantics.EvalExpr | flointerpreter.py:59-67 | the evaluator's value on the substituted text, or, for an `Exception` from `eval`, an error carrying the substituted text and the evaluator's message |
| Semantics.EvalExprNoVariables | flointerpreter.py:62-65 | with no variables the expression reaches `eval` unchanged |
| Semantics.EvalExprFailure | flointerpreter.py:66-67 | an `Exception` from `eval` becomes an error carrying the substituted text and the exception's message |
| Semantics.SubstituteAppend | flointerpreter.py:62-63 | a variable added last is substituted after all earlier ones, by `str.replace` with its `str()` |
| Semantics.SubstituteAbsent | flointerpreter.py:62-63 | an expression that mentions no variable name is passed on unchanged |
| Semantics.SubstituteInsideIdentifier | flointerpreter.py:62-63 | substitution is textual: a text that no earlier name touches is altered by the binding of `n` exactly when `n` occurs inside it and `str()` of the value is not `n`, so a name inside a longer identifier is replaced too |
| Semantics.HandleLet | flointerpreter.py:33-39 | an unmatched line changes nothing; a matched one binds the name to the value of the expression or raises with nothing changed; it returns `None` |
| Semantics.HandlePrint | flointerpreter.py:41-47 | an unmatched line changes nothing; a matched one appends `str()` of the value to the output or raises with nothing changed; it returns `None` |
| Semantics.HandleIf | flointerpreter.py:49-54 | changes nothing; returns `None` for an unmatched line, and otherwise the condition's value or its error |
| Semantics.ParseLine | flointerpreter.py:9-31 | strips the line; blank and comment lines give `None`; `let`, `print` and `if` go to their handlers; `else` gives `True`; anything else gives the stripped text |
| Semantics.BlankLineNoEffect | flointerpreter.py:11-13 | a blank or comment line yields `None` and changes nothing |
| Semantics.LetLine | flointerpreter.py:33-39 | an unmatched `let` line does nothing. A matched one either raises with the store unchanged, or binds the name to the expression's value and leaves output and other names alone. It yields `None` |
| Semantics.PrintLine | flointerpreter.py:41-47 | a `print` line never changes the variables. Unmatched it does nothing; matched it either raises with the store unchanged or appends `str()` of the value to the output |
| Semantics.IfLine | flointerpreter.py:49-54 | an `if` line never changes the store. Unmatched it yields `None`; matched it yields the condition's value or raises |
| Semantics.ParseLineFrame | flointerpreter.py:9-31 | a raising line changes nothing. Only `let` lines change variables and only `print` lines change output, by appending at most one line |
| Semantics.PassthroughText | flointerpreter.py:31 | a string result from a non-`if` line is the stripped line, and it is never "else" |
| Semantics.ValueLineRepeats | flointerpreter.py:9-31 | a line whose parse yields a value other than `None` changes nothing, so parsing it again gives the same result |
| Semantics.ParseLineIgnoresLineEnd | flointerpreter.py:11 | a trailing newline does not change what `parse_line` does |
| Semantics.StepIgnoresLineEnd | flointerpreter.py:75-93 | a trailing newline does not change an iteration of the loop |
| Semantics.RunIgnoresLineEnds | flointerpreter.py:71-93 | the loop over lines as `readlines` gives them, each with or without its newline, does what it does over the bare lines |
| Semantics.Step | flointerpreter.py:76-93 | one iteration: parse the line. A `bool` opens a block with that condition. The string "else" inside a block negates the condition. Inside a block the line is parsed again when the condition holds, and the block ends unless the raw line starts with a space. Outside a block a truthy result is parsed again |
| Semantics.Again | flointerpreter.py:86-93 | the second `self.parse_line(line)`: its value is dropped, its exception ends the run, and its store is kept |
| Semantics.AgainStore | flointerpreter.py:86-93 | after the second parse the store is the one that parse left |
| Semantics.Run | flointerpreter.py:73-93 | the iterations over the lines in order, threading the store and the flags; the first exception ends the loop |
| Semantics.RunScript | flointerpreter.py:73-74 | the loop from a fresh interpreter with both flags false |
| Semantics.BoolLineOpensBlock | flointerpreter.py:79-81 | any line whose parse yields a `bool` opens a block with that `bool` as its condition |
| Semantics.ElseLineSetsTrue | flointerpreter.py:79-81 | an `else` line, inside a block or not, leaves the loop in a block with a true condition and changes nothing else |
| Semantics.ElseFromIfLine | flointerpreter.py:10-30 | the string "else" comes back from `parse_line` only for a matched `if` line whose condition evaluates to "else", and that line changes nothing |
| Semantics.NegationOnlyFromElseString | flointerpreter.py:82-83 | the negation branch is reached only by an `if` line whose condition evaluates to the string "else"; it then negates the condition |
| Semantics.BlockLine | flointerpreter.py:84-90 | inside a block, a line is parsed a second time exactly when the condition holds, and the block ends unless the raw line starts with a space |
| Semantics.OutsideBlockOnce | flointerpreter.py:91-93 | outside a block, a non-`bool` line's effect is that of one parse. A truthy result is parsed again, which changes nothing more |
| Semantics.PrintInBlock | flointerpreter.py:84-90 | a `print` inside a block prints twice under a true condition and once under a false one |
| Semantics.LetInTrueBlock | flointerpreter.py:84-90 | a `let` inside a true block is evaluated twice, the second time with the first value already bound |
| Semantics.RunAppend | flointerpreter.py:75-93 | running two line sequences one after the other is running their concatenation, and an exception stops it |
| Semantics.StepOutputGrows | flointerpreter.py:75-93 | one iteration only appends to the output |
| Semantics.RunOutputGrows | flointerpreter.py:73-93 | running a script only appends to the output |
| Semantics.ParseLineKeepsNamesDistinct | flointerpreter.py:9-39 | parsing a line keeps the variable names distinct |
| Semantics.StepKeepsNamesDistinct | flointerpreter.py:75-93 | one iteration keeps the variable names distinct |
| Semantics.RunKeepsNamesDistinct | flointerpreter.py:73-93 | running a script keeps the variable names distinct |
| Semantics.StepWithoutLet | flointerpreter.py:75-93 | an iteration on a line that is not a `let` leaves the variables unchanged |
| Semantics.RunWithoutLet | flointerpreter.py:73-93 | a script without `let` lines leaves the variables unchanged |
| Interpreter.FloInterpreter.constructor | flointerpreter.py:6-7 | a new interpreter has no variables and has printed nothing |
| Interpreter.FloInterpreter.EvaluateExpression | flointerpreter.py:59-67 | the substitution loop over the variables in insertion order, then `eval`, gives the value or the error of `Semantics.EvalExpr`; nothing changes |
| Interpreter.FloInterpreter.HandleVariableAssignment | flointerpreter.py:33-39 | the new variables and output, and the value or error returned, are those of `Semantics.HandleLet`; the names stay distinct |
| Interpreter.FloInterpreter.HandlePrintStatement | flointerpreter.py:41-47 | changes only the output, as `Semantics.HandlePrint` says |
| Interpreter.FloInterpreter.HandleIfStatement | flointerpreter.py:49-54 | changes nothing and returns the condition's value or error, as `Semantics.HandleIf` says |
| Interpreter.FloInterpreter.ParseLine | flointerpreter.py:9-31 | the new state and the result are those of `Semantics.ParseLine` |
| Interpreter.FloInterpreter.Run | flointerpreter.py:69-93 | after the loop over the lines, the state is that of `Semantics.Run` from the old state with both flags false. An error is returned exactly when that run raises, and it is the run's error |
| Scenarios.StripIndented | flointerpreter.py:11 | stripping removes exactly a space indentation |
| Scenarios.LetShape | flointerpreter.py:11-35 | an indented `let NAME = EXPR` line classifies as `let` and matches with that name and expression |
| Scenarios.PrintShape | flointerpreter.py:11-43 | an indented `print EXPR` line classifies as `print` and matches with that expression |
| Scenarios.IfShape | flointerpreter.py:11-51 | an indented `if COND:` line classifies as `if` and matches with that condition |
| Scenarios.ElseShape | flointerpreter.py:11-29 | an indented `else` line classifies as `else` |
| Scenarios.LetOutside | flointerpreter.py:91-93 | outside a block, a `let` line binds its name and keeps the flags |
| Scenarios.PrintOutside | flointerpreter.py:91-93 | outside a block, a `print` line prints its value once and keeps the flags |
| Scenarios.PrintIndented | flointerpreter.py:84-90 | an indented `print` inside a block prints twice or once by the condition, and the block continues |
| Scenarios.IfOpens | flointerpreter.py:79-81 | an `if` line whose condition is a `bool` opens a block with that condition |
| Scenarios.ElseStep | flointerpreter.py:79-81 | a bare `else` line sets the block's condition to true |
| Scenarios.AssignThenPrint | flointerpreter.py:69-93 | `let x = 5` then `print x` prints `5` |
| Scenarios.IfElseRun | flointerpreter.py:69-93 | the if/else script prints the value twice when the condition holds and once when it does not, then `0` twice |
| Scenarios.IfElseWithTrueCondition | flointerpreter.py:69-93 | with `x` bound to 3 the if/else script prints `3`, `3`, `0`, `0` |
| Scenarios.IfElseWithFalseCondition | flointerpreter.py:69-93 | with `x` bound to 0 the if/else script prints `0` three times |
| Scenarios.IfElseFileWithTrueCondition | flointerpreter.py:70-93 | the same script with the newlines `readlines` keeps prints the same |
| Scenarios.ExpressionPrinted | flointerpreter.py:41-47 | `print 2 + 3 * 4` prints what `eval` gives, `14` |
| Scenarios.UnboundNameAborts | flointerpreter.py:66-67 | printing an unbound name raises with the expression text, and nothing is printed |
| Scenarios.NameInsideLongerName | flointerpreter.py:62-63 | with `x` bound before `xy`, the text `xy` becomes `1y`, so `xy` is never looked up |

## Left out

- Reading the script file (`flointerpreter.py:70-71`): `Run` takes the lines
  as `readlines` returns them. `Semantics.RunIgnoresLineEnds` shows that
  their newlines make no difference.
- The command-line entry point (`flointerpreter.py:95-102`): it checks
  arguments and exits with a status, which is process I/O.
- Python's `eval` (`flointerpreter.py:65`) is a parameter, not a model of
  Python expressions. Expressions with side effects, or that see the
  interpreter's own locals, are outside the model; the scenarios state the
  values `eval` gives as assumptions on the evaluator.
- The exact text of the exception message (`flointerpreter.py:67`): an
  `EvalError` keeps its two parts, the substituted expression and the cause.
- Writing to standard output (`flointerpreter.py:47`): each printed line is
  appended to `output`.
- Text.IsWordChar: only ASCII letters, digits and `_` count as `\w`
  characters, whereas Python's `\w` on `str` also accepts other Unicode word
  characters.
- Statements.WordRun: it is built on `Text.IsWordChar`, so it has the same
  ASCII restriction.
- Values.Str: `str()` is written out for `bool`, `int`, `str` and `None`. Any
  other Python value (float, list and so on) is an `OtherV` that carries its
  own `str()` text and truthiness. The limit on converting integers to
  decimal text is not modelled. Since Python 3.11, `str()` of an integer with
  more than 4300 digits raises `ValueError` by default. At
  `flointerpreter.py:47` that error is outside the `try` and ends the run.
  At `flointerpreter.py:63` it becomes the interpreter's own error, carrying
  the text substituted so far. In both places the model instead produces the
  digits.
- An evaluator `Failure` stands for an `Exception` raised by `eval`. Not
  modelled: a `BaseException` that is not an `Exception`, such as the
  `SystemExit` of `exit()` or a `KeyboardInterrupt`. It passes
  `except Exception` at `flointerpreter.py:66` unwrapped and ends the run
  without the `ValueError`. Also not modelled: an `eval` that does not
  return, because an `Evaluator` is a total function.
