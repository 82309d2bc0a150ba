# A Dafny model of the jinja2-style template `build`

`build(template, context)` (src/jinja2.ts:35-437) is a small line-oriented
template interpreter. It works as follows:

- It splits the template on `'\n'` and walks the lines with one cursor.
- It classifies each line by regular expression, in this order:
  - a comment `{# … #}`: the line is dropped;
  - `{% if c %}` or `{% elif c %}`: a condition handed to an expression evaluator;
  - `{% else %}`;
  - `{% for x in xs %}`;
  - `{% endfor %}`;
  - otherwise a content line, whose `{{ name }}` markers are replaced by the bound values.
- A taken branch has its body gathered by a forward scan. The body is
  rendered by a recursive `build` on the same context, and the output is
  split back into lines.
- A false branch is skipped by a second forward scan. All these scans share
  one nesting counter.
- A `for` pushes a frame and binds the item variable. Its `endfor` either
  advances the frame and moves the cursor back to the line after the `for`,
  or deletes the item variable and pops the frame.

The model keeps that structure:

- Lines (`lines.dfy`): `Split` and `Join` as JavaScript's `split('\n')` and `join('\n')`.
- Patterns (`patterns.dfy`): one deterministic matcher per regular expression.
  These are `IsComment`, `IsIf`, `IsElif`, `IsElse`, `IsEndif`, `IsFor` and `IsEndfor`,
  plus the captured condition and loop names. They use the JavaScript `\s`, `\w`
  and `.` classes, the lazy `(.*?)` capture and the leftmost match.
- Interpolation (`interpolation.dfy`): a content line is cut into
  `Text`/`Var` segments, and the segments are substituted. This is proved
  equal to the global `replace` read directly off the line.
- Engine (`engine.dfy`): the scan state `State(cursor, frames, depth, ctx, out)`
  (`scanstate.dfy`) is stepped by `Scan` over the immutable line sequence.
  - The forward scans of a conditional are `CollectBranch`, `CollectElse`,
    `SkipToEndif` and `SkipBranch`.
  - `Build` is one `build` call. It returns the joined output and the context
    as the call leaves it, because the recursive call shares the caller's
    context object.
- Progress (`progress.dfy`): why `Scan` terminates although `endfor` rewinds.
  Each line carries a digit, and the digits read as one number decrease at
  every step. No fuel is needed.
- Content, Branches, Loops (`content.dfy`, `branches.dfy`, `loops.dfy`):
  what the scan does for content and comment lines, for conditionals and
  for loops, and what whole templates of those shapes render to.

Two things `build` calls are parameters, the fields of `Engine.Host`:
- the condition evaluator (`conditionIsTrue`, src/jinja2.ts:6-33);
- the string conversion of a substituted value.

A context is a `map<string, Value>`. An absent key stands for JavaScript `undefined`.

The code fixes some behaviour that a reader of the templates might not
expect, and the model follows the code:

- An unterminated `if`, `else` or `for` raises nothing: the scans stop at the
  end of input.
  - A false `if`/`elif` with no later depth-0 `elif`, `else` or `endif`
    drops the rest of the template. When a depth-0 `elif` or `else` follows,
    the main loop goes on there as usual.
  - A true `if`/`elif` that nothing closes renders the rest as its body.
  - An `else` that no `endif` closes renders the rest as its body.
  - A `for` that no `endfor` closes renders the rest once, with the item
    bound to the first element, or unbound for an empty list.
- A `for` over an empty list walks its body once with the item unbound.
- After a taken `if`/`elif`, the main loop resumes after the first `endif`
  that FOLLOWS the line that ended the body. When that line was the
  branch's own `endif`, the lines up to the next `endif` are swallowed.
- The body of an `else` is gathered by a scan that looks only at `if` and
  `endif` lines (src/jinja2.ts:342-356). Nested `elif` and `else` lines are
  therefore copied into the body, unlike in an `if`/`elif` body, where all
  four branch markers are dropped.
- `{% endfor %}` is matched with exactly this spacing. The other directives allow any whitespace
  around their keywords, and `if`, `elif`, `for` and `in` need at least one
  whitespace character after them (src/jinja2.ts:75-76, 365).

## Model

| member | source | states |
|---|---|---|
| Lines.JoinOfSplit | src/jinja2.ts:38 | no line of `split('\n')` holds a newline, and joining the lines gives the template back |
| Lines.SplitOfJoin | src/jinja2.ts:128-130 | splitting a join of one or more newline-free lines gives those lines back, as happens with a branch body's lines |
| Patterns.SkipSpaceSpec | src/jinja2.ts:75 | the greedy `\s*` run ends at the first non-space or at the end of the line, and holds only spaces |
| Patterns.SkipWordSpec | src/jinja2.ts:365 | the greedy `\w+` run ends at the first non-word character or at the end of the line, and holds only word characters |
| Patterns.LazyCloseSpec | src/jinja2.ts:75-76 | the lazy condition capture ends at the first position followed by `\s*%}`, with no line terminator before it; there is no match exactly when every such position comes after a line terminator |
| Patterns.LeftmostSpec | src/jinja2.ts:79 | a pattern's match on a line is the one at the first position where it matches, and there is none exactly when it matches nowhere |
| Patterns.SomewhereSpec | src/jinja2.ts:68 | a pattern whose match is only tested, not captured, matches a line exactly when it matches at some position |
| Interpolation.MarkerText | src/jinja2.ts:425 | a marker match is `{{`, whitespace, a non-empty word (the captured name), whitespace, `}}`, and occurs at its position in the line |
| Interpolation.SegmentsSpec | src/jinja2.ts:426 | the literal texts and matched markers of a line, in order, make up the line exactly, with no empty literal |
| Interpolation.SubstituteSpec | src/jinja2.ts:427-431 | substitution succeeds exactly when every marker's name is bound; a failure is the undefined-variable error of the first unbound marker, with all earlier ones bound; without markers the text is unchanged |
| Interpolation.SegmentsReplace | src/jinja2.ts:426-432 | substituting the segments from any position is the left-to-right global replacement from that position |
| Interpolation.InterpolateReplaces | src/jinja2.ts:425-432 | interpolating a line is the global `replace` of every marker by its value's string form, failing at the first unbound name |
| Interpolation.NoMarkersUnchanged | src/jinja2.ts:425-433 | a line without markers interpolates to itself in any context |
| Engine.CollectBranch | src/jinja2.ts:88-127 | the gathering scan of a taken `if`/`elif` stops at the last line or at a line that ends the branch at the running counter, with the counter zero there |
| Engine.CollectBranchBody | src/jinja2.ts:96-126 | the gathered body is exactly the lines passed that are none of `if`, `elif`, `else`, `endif`, in order |
| Engine.CollectElse | src/jinja2.ts:334-357 | the gathering scan of an `else` stops at the last line or at an `endif` met with the counter at zero |
| Engine.CollectElseBody | src/jinja2.ts:342-356 | the gathered `else` body is exactly the lines passed that are neither `if` nor `endif`, in order |
| Engine.SkipToEndif | src/jinja2.ts:133-153 | the skip after a taken body stops at the last line or at an `endif` met with the counter at zero |
| Engine.SkipBranch | src/jinja2.ts:158-202 | the skip of a false branch stops one line before a depth-0 `elif`/`else`, on a depth-0 `endif`, or at the last line |
| Engine.Build | src/jinja2.ts:129 | a nested `build` call binds names only to parts of values already in the context, so it leaves every list and string within the size bound of the context it was given |
| Engine.Scan | src/jinja2.ts:57 | a successful scan has consumed every line |
| Content.ScanPassive | src/jinja2.ts:66-72 | passing over comment and content lines drops the comments, appends the interpolated content lines in order, and fails at the first unbound marker; the loops, the counter and the context are untouched |
| Content.BuildPassive | src/jinja2.ts:424-436 | a template of comment and content lines renders as its lines render on their own, and leaves the context unchanged |
| Content.BuildPassiveLines | src/jinja2.ts:128-129 | a branch body of passive lines, joined and built, renders as its lines do; an empty body builds the empty template |
| Content.RenderUnmarked | src/jinja2.ts:66-72 | comment lines vanish and marker-free content lines render to themselves, in any context |
| Content.CommentsVanish | src/jinja2.ts:69-71 | lines that are all comments render to no line at all |
| Content.CommentsDropped | src/jinja2.ts:66-72 | in a template of comments and marker-free content lines, every comment line is dropped whole and every other line keeps its place |
| Content.PlainTemplate | src/jinja2.ts:38-436 | a template with no comment, directive or marker renders to itself |
| Content.NoBraceTemplate | src/jinja2.ts:38-436 | a template without `{` renders to itself |
| Content.EmptyTemplate | src/jinja2.ts:38-43 | the empty template renders to the empty string |
| Branches.RenderLines | src/jinja2.ts:35-57 | rendering a template given as its lines is the scan from line 0 with no loops, the counter at zero and no output |
| Branches.TakenBranch | src/jinja2.ts:87-154 | a true `if`/`elif` builds the body up to the first line ending the branch, splices its lines into the output, takes on the context the body left, and resumes after the first depth-0 `endif` after the ending line; no later condition is evaluated |
| Branches.TakenBranchFails | src/jinja2.ts:128-130 | a taken branch whose body fails to render fails the render with that error |
| Branches.TakenBranchToEnd | src/jinja2.ts:132-154 | with no `endif` after the line that ended a taken body, the scan ends with the body's output and the rest of the template is never looked at |
| Branches.FalseBranch | src/jinja2.ts:157-203 | a false `if`/`elif` resumes on the first depth-0 `elif` or `else`, so it is dispatched again, or after the first depth-0 `endif`, leaving output and context as they were |
| Branches.ConditionFails | src/jinja2.ts:87 | a condition the evaluator rejects fails the render with an evaluation error naming the condition |
| Branches.ElseTaken | src/jinja2.ts:332-362 | an `else` reached by the main loop builds its body up to the first depth-0 `endif`, splices its lines in, and resumes after that `endif` |
| Branches.ElseTakenFails | src/jinja2.ts:358-360 | an `else` whose body fails to render fails the render with that error |
| Branches.ElseRunsOut | src/jinja2.ts:332-361 | an `else` that no `endif` closes takes every later line that is neither `if` nor `endif` as its body: the render ends with that body's output appended and its context |
| Branches.ElseRunsOutFails | src/jinja2.ts:358-360 | the same `else` whose body fails to render fails the render with that error |
| Branches.EmptyBodyLine | src/jinja2.ts:96-130 | a taken branch whose gathered body is empty or only comments, also when it was emptied by dropping nested branch markers, adds exactly one line, the empty one, to the output so far, and resumes after the first depth-0 `endif` past the ending line with the context unchanged |
| Branches.FalseRunsOut | src/jinja2.ts:158-202 | a false `if`/`elif` that no later line closes skips the rest of the template: the render ends without an error, with output, context and loops as they were |
| Branches.TakenRunsOut | src/jinja2.ts:88-153 | a true `if`/`elif` that no later line closes takes every later line that is no branch marker as its body: the render ends with that body's output appended and its context |
| Branches.TakenRunsOutFails | src/jinja2.ts:128-130 | the same branch whose body fails to render fails the render with that error |
| Branches.TakenRender | src/jinja2.ts:79-154 | a template that starts with a true `if`/`elif` with a plain body and has plain lines after the closing `endif` renders to the body's text followed by those lines' rendering; the lines in between leave no trace |
| Branches.TakenRenderToEnd | src/jinja2.ts:88-154 | such a template with no closing `endif` renders to the body's text alone |
| Branches.FalseThenElif | src/jinja2.ts:79-204 | a template that starts with a false `if` followed by a true `elif` with a plain body renders to the `elif` body's text followed by the lines after the closing `endif`; the `if` body and the rest of the chain leave no trace |
| Branches.IfElseTaken | test/jinja2.test.ts:115-130 | an `if`/`else` template whose condition holds renders to the `if` body followed by the lines after the `endif`; the `else` body leaves no trace |
| Branches.IfElseSkipped | test/jinja2.test.ts:115-130 | an `if`/`else` template whose condition fails renders to the `else` body followed by the lines after the `endif`; the `if` body leaves no trace |
| Branches.IfSwallowsRest | src/jinja2.ts:132-153 | a true `if` closed by its `endif`, with no `if` or `endif` after it, renders to its body alone: every line after the closing `endif` is dropped |
| Branches.ElseRender | src/jinja2.ts:332-362 | a template that starts with an `else` with a plain body renders to the body's text followed by the rendering of the lines after its `endif` |
| Loops.UndefinedList | src/jinja2.ts:379-382 | a `for` over an unbound name fails with an undefined-list error for that name |
| Loops.NotAList | src/jinja2.ts:383-386 | a `for` over a bound value that is not a list fails with a not-an-array error for that name |
| Loops.ForOpens | src/jinja2.ts:387-395 | a `for` over a list pushes a frame for its own line at index 0 and goes on at the next line; the item is bound to the first element, or unbound for an empty list |
| Loops.LoopRunsOut | src/jinja2.ts:387-395 | a `for` over a list that no `endfor` closes renders the rest of the template once, the item bound to the first element or unbound for an empty list, and the render ends with the loop still open; a failure there fails the render |
| Loops.EndforUnmatched | src/jinja2.ts:402-404 | an `endfor` with no open loop fails with its own 1-based line number |
| Loops.EndforListLost | src/jinja2.ts:410 | an `endfor` whose loop's list variable has become unbound fails |
| Loops.EndforRewinds | src/jinja2.ts:405-417 | an `endfor` with a further element acts on the innermost frame only: it advances the index, binds the item to the next element and resumes after that loop's `for` line |
| Loops.EndforExits | src/jinja2.ts:418-421 | an `endfor` without a further element deletes the item variable, even if it was bound before the loop, pops exactly one frame and goes on at the next line |
| Loops.LoopFrom | src/jinja2.ts:405-421 | from iteration `k` of a loop with a plain body, the scan renders the body once per remaining element, in order, with the item bound to that element, then goes on after the `endfor` with the item deleted and the outer frames as they were |
| Loops.EmptyLoop | src/jinja2.ts:394 | a loop over an empty list renders its body once with the item unbound, then goes on after the `endfor` |
| Loops.LoopRun | src/jinja2.ts:387-421 | a loop with a plain body, from its `for` line, renders the body once per list element in order (once, item unbound, for an empty list), then goes on after the `endfor` with the item deleted |
| Loops.IterationsUnmarked | src/jinja2.ts:405-417 | for a body without markers, the renderings from element `k` on are the body's content lines repeated once per remaining element |
| Loops.PassesUnmarked | src/jinja2.ts:387-421 | for a body without markers, a loop over `n` elements renders the body's content lines `n` times, or once if `n` is 0 |
| Loops.LoopRepeats | src/jinja2.ts:57-421 | a loop over `n` elements whose body has no markers appends its content lines `n` times (once for an empty list) and goes on after the `endfor` |

## Left out

- The condition evaluator (src/jinja2.ts:6-33) and its `and`/`or`/`not` rewrite belong to a foreign expression library. They are the uninterpreted `Host.eval`, returning a boolean or an error message.
- The string conversion JavaScript applies to a substituted value (src/jinja2.ts:431) is the uninterpreted `Host.toStr`.
- The `logger` callbacks and their `JSON.stringify` diagnostics have no effect on the output.
- The texts of thrown messages are not modelled. Errors are kinds with the name or line number they carry.
- The throws for a missing capture group (src/jinja2.ts:83-85, 209-211, 370-377) cannot happen and are not modelled, since the groups always take part in a match.
- The empty line array (src/jinja2.ts:41-43) cannot happen, since `split` always yields at least one string.
- The `templateLine === undefined` check (src/jinja2.ts:61) and the `nextLine === undefined` checks (src/jinja2.ts:93, 136, 161, 219, 262, 287, 339) cannot happen either, since every index they read is below the array's `length`.
- The undefined top frame (src/jinja2.ts:406-408) cannot happen, since the empty loop stack has already failed at src/jinja2.ts:402-404.
- A string used as a loop list is walked by Unicode code points, while JavaScript's `length` and indexing count UTF-16 code units (src/jinja2.ts:410, 414). A string holding characters outside the Basic Multilingual Plane loops fewer times in the model than in JavaScript, and each item is a whole character rather than half of a surrogate pair.
- Values are strings, integers, booleans and nested lists. JavaScript objects, `null`, prototype-inherited keys and floating-point numbers are not modelled.
- A key bound to `undefined` is the same as an absent key. The empty-list `for` binding `undefined` is modelled as removing the key, which every later lookup treats alike.
- Loops.LoopRun: stated for a body of comment and content lines and an item name different from the list name. A body holding directives is covered only step by step, by Loops.ForOpens, Loops.EndforRewinds and Loops.EndforExits.
- Loops.LoopFrom: same restriction as Loops.LoopRun.
- Loops.EmptyLoop: same restriction as Loops.LoopRun.
- Loops.LoopRunsOut: stated for a `for` followed only by comment and content lines.
- Loops.LoopRepeats: same restriction as Loops.LoopRun, and a marker-free body.
- Branches.TakenRender: stated for a plain body and plain lines after the `endif`, at the start of a template. General bodies and positions are covered by Branches.TakenBranch.
- Branches.TakenRenderToEnd: same restriction as Branches.TakenRender.
- Branches.IfElseTaken: same restriction as Branches.TakenRender.
- Branches.IfElseSkipped: same restriction as Branches.TakenRender, for the `else` body.
- Branches.IfSwallowsRest: same restriction as Branches.TakenRender.
- Branches.FalseThenElif: same restriction as Branches.TakenRender, for the `elif` body.
- Branches.ElseRender: same restriction as Branches.TakenRender. General bodies are covered by Branches.ElseTaken.
- Engine.Scan: the model does not state that the final output extends the output already rendered. The relation between a scan's output and the lines it passes is stated per construct instead.
