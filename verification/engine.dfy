/** The template interpreter `build` (src/jinja2.ts:35-437): a scan over the
    template's lines with a cursor, a loop-frame stack, a shared `if`
    nesting counter and the context, where taken `if`/`elif`/`else` bodies
    are rendered by a recursive `build` on the same context and `endfor`
    repeats a loop body by moving the cursor back. */
module Engine {
  import opened Wrappers
  import opened Lines
  import opened Patterns
  import opened Values
  import opened Interpolation
  import opened ScanState
  import Progress

  /** What `build` calls but does not define: the condition evaluator
      (`conditionIsTrue`, src/jinja2.ts:6-33, with its and/or/not rewrite
      and the truthiness of its result), and the string conversion
      JavaScript applies to a substituted value. */
  datatype Host = Host(eval: (string, Context) -> Result<bool, string>, toStr: Value -> string)

  /** Where a forward scan that gathers a branch body stopped, the nesting
      counter there, and the gathered lines. */
  datatype Collected = Collected(stop: nat, depth: nat, body: seq<string>)

  /** Where a forward scan that skips lines stopped, and the nesting counter there. */
  datatype Skipped = Skipped(stop: nat, depth: nat)

  /** The joined output of one `build` call and the context it leaves behind. */
  datatype Rendered = Rendered(text: string, ctx: Context)

  predicate IsBranchMarker(line: string) {
    IsIf(line) || IsElif(line) || IsElse(line) || IsEndif(line)
  }

  /** The lines an `if`/`elif` body copies: none of the four branch markers. */
  predicate KeepInBranch(line: string) {
    !IsBranchMarker(line)
  }

  /** The lines an `else` body copies: neither `if` nor `endif`. */
  predicate KeepInElse(line: string) {
    !IsIf(line) && !IsEndif(line)
  }

  /** Whether the scan of a taken `if`/`elif` body, or of a false branch,
      ends at `line`: an `elif`, `else` or `endif` that is not also an `if`,
      met with the counter at zero. */
  predicate EndsBranch(line: string, depth: nat) {
    depth == 0 && !IsIf(line) && (IsElif(line) || IsElse(line) || IsEndif(line))
  }

  /** The counter after a line those scans pass over: an `if` raises it, an
      `endif` lowers it, `elif` and `else` leave it. */
  function BranchDepth(line: string, depth: nat): nat {
    if IsIf(line) then depth + 1
    else if IsElif(line) || IsElse(line) then depth
    else if IsEndif(line) && depth > 0 then depth - 1
    else depth
  }

  /** Whether the scan of an `else` body, or the skip after a taken body,
      ends at `line`: an `endif` that is not also an `if`, met with the
      counter at zero. */
  predicate EndsAtEndif(line: string, depth: nat) {
    depth == 0 && !IsIf(line) && IsEndif(line)
  }

  /** The counter after a line those scans pass over; they look at `if` and
      `endif` lines only. */
  function EndifDepth(line: string, depth: nat): nat {
    if IsIf(line) then depth + 1
    else if IsEndif(line) && depth > 0 then depth - 1
    else depth
  }

  /** The counter a forward scan that starts after `lines[i]` with `depth`
      holds when it reaches line `k`, where `step` gives the counter after
      each line passed over. */
  function DepthAt(lines: seq<string>, i: nat, k: nat, depth: nat, step: (string, nat) -> nat): nat
    requires k <= |lines|
    decreases k - i
  {
    if k <= i + 1 then depth else DepthAt(lines, i + 1, k, step(lines[i + 1], depth), step)
  }

  /** Gathers the body of a taken `if`/`elif` whose line is `lines[i]`
      (src/jinja2.ts:88-127): the scan stops at the first line after
      `lines[i]` that ends the branch at the running counter, or at the
      last line, and the body is every line passed that is none of the four
      branch markers. */
  function CollectBranch(lines: seq<string>, i: nat, depth: nat): (r: Collected)
    requires i < |lines|
    ensures i <= r.stop < |lines|
    ensures r.stop + 1 == |lines|
         || (i < r.stop && r.depth == 0 && EndsBranch(lines[r.stop], DepthAt(lines, i, r.stop, depth, BranchDepth)))
    ensures i < r.stop && EndsBranch(lines[r.stop], DepthAt(lines, i, r.stop, depth, BranchDepth)) ==> r.depth == 0
    decreases |lines| - i
  {
    if i + 1 >= |lines| then Collected(i, depth, [])
    else if EndsBranch(lines[i + 1], depth) then
      assert lines[i + 1..i + 2] == [lines[i + 1]];
      Collected(i + 1, depth, [])
    else
      var r := CollectBranch(lines, i + 1, BranchDepth(lines[i + 1], depth));
      Collected(r.stop, r.depth, (if KeepInBranch(lines[i + 1]) then [lines[i + 1]] else []) + r.body)
  }

  /** Gathers the body of an `else` whose line is `lines[i]`
      (src/jinja2.ts:334-357): only `if` and `endif` lines are looked at, so
      nested `elif` and `else` lines are copied; the scan stops at the first
      `endif` that ends the body at the running counter, or at the last line. */
  function CollectElse(lines: seq<string>, i: nat, depth: nat): (r: Collected)
    requires i < |lines|
    ensures i <= r.stop < |lines|
    ensures r.stop + 1 == |lines|
         || (i < r.stop && r.depth == 0 && EndsAtEndif(lines[r.stop], DepthAt(lines, i, r.stop, depth, EndifDepth)))
    ensures i < r.stop && EndsAtEndif(lines[r.stop], DepthAt(lines, i, r.stop, depth, EndifDepth)) ==> r.depth == 0
    decreases |lines| - i
  {
    if i + 1 >= |lines| then Collected(i, depth, [])
    else if EndsAtEndif(lines[i + 1], depth) then
      assert lines[i + 1..i + 2] == [lines[i + 1]];
      Collected(i + 1, depth, [])
    else
      var r := CollectElse(lines, i + 1, EndifDepth(lines[i + 1], depth));
      Collected(r.stop, r.depth, (if KeepInElse(lines[i + 1]) then [lines[i + 1]] else []) + r.body)
  }

  /** The body of a taken `if`/`elif` is exactly the lines from `lines[i + 1]`
      up to where the scan stopped that are none of the branch markers. */
  lemma {:induction false} CollectBranchBody(lines: seq<string>, i: nat, depth: nat)
    requires i < |lines|
    ensures CollectBranch(lines, i, depth).body == Filter(lines[i + 1..CollectBranch(lines, i, depth).stop + 1], KeepInBranch)
    decreases |lines| - i
  {
    if i + 1 < |lines| && !EndsBranch(lines[i + 1], depth) {
      var r := CollectBranch(lines, i + 1, BranchDepth(lines[i + 1], depth));
      CollectBranchBody(lines, i + 1, BranchDepth(lines[i + 1], depth));
      assert lines[i + 1..r.stop + 1][1..] == lines[i + 2..r.stop + 1];
      FilterCons(lines[i + 1..r.stop + 1], KeepInBranch);
    } else if i + 1 < |lines| {
      assert lines[i + 1..i + 2] == [lines[i + 1]];
    }
  }

  /** The body of an `else` is exactly the lines from `lines[i + 1]` up to
      where the scan stopped that are neither `if` nor `endif`. */
  lemma {:induction false} CollectElseBody(lines: seq<string>, i: nat, depth: nat)
    requires i < |lines|
    ensures CollectElse(lines, i, depth).body == Filter(lines[i + 1..CollectElse(lines, i, depth).stop + 1], KeepInElse)
    decreases |lines| - i
  {
    if i + 1 < |lines| && !EndsAtEndif(lines[i + 1], depth) {
      var r := CollectElse(lines, i + 1, EndifDepth(lines[i + 1], depth));
      CollectElseBody(lines, i + 1, EndifDepth(lines[i + 1], depth));
      assert lines[i + 1..r.stop + 1][1..] == lines[i + 2..r.stop + 1];
      FilterCons(lines[i + 1..r.stop + 1], KeepInElse);
    } else if i + 1 < |lines| {
      assert lines[i + 1..i + 2] == [lines[i + 1]];
    }
  }

  /** Skips past the rest of a conditional after its taken body
      (src/jinja2.ts:133-153): only `if` and `endif` lines are looked at,
      and the scan stops at the first `endif` after `lines[i]` that ends it
      at the running counter, or at the last line. */
  function SkipToEndif(lines: seq<string>, i: nat, depth: nat): (r: Skipped)
    requires i < |lines|
    ensures i <= r.stop < |lines|
    ensures r.stop + 1 == |lines|
         || (i < r.stop && r.depth == 0 && EndsAtEndif(lines[r.stop], DepthAt(lines, i, r.stop, depth, EndifDepth)))
    ensures i < r.stop && EndsAtEndif(lines[r.stop], DepthAt(lines, i, r.stop, depth, EndifDepth)) ==> r.depth == 0
    decreases |lines| - i
  {
    if i + 1 >= |lines| then Skipped(i, depth)
    else if EndsAtEndif(lines[i + 1], depth) then Skipped(i + 1, depth)
    else SkipToEndif(lines, i + 1, EndifDepth(lines[i + 1], depth))
  }

  /** Skips the body of a branch whose condition is false
      (src/jinja2.ts:158-202), up to the first line that ends the branch at
      the running counter. At an `elif` or `else` the scan stops one line
      short of it (the `i--`), so that the main loop dispatches that line
      next; at an `endif` it stops on it; otherwise at the last line. */
  function SkipBranch(lines: seq<string>, i: nat, depth: nat): (r: Skipped)
    requires i < |lines|
    ensures i <= r.stop < |lines|
    ensures
      || (&& r.stop + 1 < |lines| && r.depth == 0
          && EndsBranch(lines[r.stop + 1], DepthAt(lines, i, r.stop + 1, depth, BranchDepth))
          && (IsElif(lines[r.stop + 1]) || IsElse(lines[r.stop + 1])))
      || (&& i < r.stop && r.depth == 0
          && EndsBranch(lines[r.stop], DepthAt(lines, i, r.stop, depth, BranchDepth))
          && !IsElif(lines[r.stop]) && !IsElse(lines[r.stop]))
      || r.stop + 1 == |lines|
    decreases |lines| - i
  {
    if i + 1 >= |lines| then Skipped(i, depth)
    else if EndsBranch(lines[i + 1], depth) then
      if IsElif(lines[i + 1]) || IsElse(lines[i + 1]) then Skipped(i, depth) else Skipped(i + 1, depth)
    else SkipBranch(lines, i + 1, BranchDepth(lines[i + 1], depth))
  }

  /** Whether a loop at list position `k` has a further element, by the
      `length` JavaScript reads at `endfor` (src/jinja2.ts:410): a list's or
      a string's; any other value has none, and the comparison is false. */
  predicate HasNext(v: Value, k: nat) {
    match v
    case List(items) => k + 1 < |items|
    case Str(s) => k + 1 < |s|
    case _ => false
  }

  /** `v[k]` for a list, or the one-character string at `k` for a string
      (src/jinja2.ts:414). */
  function Element(v: Value, k: nat): (e: Value)
    requires (v.List? && k < |v.items|) || (v.Str? && k < |v.s|)
    ensures Size(e) <= Size(v)
  {
    match v
    case List(items) => ElementSize(items, k); items[k]
    case Str(s) => Str([s[k]])
  }

  /** Renders `template` against `ctx` as one call of `build` does,
      returning the joined output and the context as the call leaves it.
      The ghost `b` bounds the context's lists; it only serves the proof
      that the scan terminates. */
  function Build(host: Host, template: string, ctx: Context, ghost b: nat): (r: Result<Rendered, Error>)
    requires Bounded(ctx, b)
    ensures r.Ok? ==> Bounded(r.value.ctx, b)
    decreases |template|, 1
  {
    var lines := Split(template);
    JoinOfSplit(template);
    var st :- Scan(host, lines, State(0, [], 0, ctx, []), b);
    Ok(Rendered(Join(st.out), st.ctx))
  }

  /** The result of `build(template, context)` (src/jinja2.ts:35). */
  function Render(host: Host, template: string, ctx: Context): Result<string, Error> {
    var r :- Build(host, template, ctx, CtxBound(ctx));
    Ok(r.text)
  }

  /** The main loop of `build` from the cursor on (src/jinja2.ts:57-436),
      dispatching each line in the order comment, `if`, `elif`, `else`,
      `for`, `endfor`, content. */
  function Scan(host: Host, lines: seq<string>, st: State, ghost b: nat): (r: Result<State, Error>)
    requires Progress.Valid(|lines|, st, b)
    ensures r.Ok? ==> r.value.cursor == |lines| && Bounded(r.value.ctx, b)
    decreases |Join(lines)|, 0, Progress.Measure(|lines|, st, b), 2
  {
    if st.cursor == |lines| then Ok(st)
    else
      var line := lines[st.cursor];
      if IsComment(line) then Next(host, lines, st, st.(cursor := st.cursor + 1), b)
      else if IsIf(line) then Conditional(host, lines, st, IfCondition(line).value, b)
      else if IsElif(line) then Conditional(host, lines, st, ElifCondition(line).value, b)
      else if IsElse(line) then ElseBranch(host, lines, st, b)
      else if IsFor(line) then OpenLoop(host, lines, st, ForHeader(line).value, b)
      else if IsEndfor(line) then CloseLoop(host, lines, st, b)
      else
        var text :- Interpolate(line, st.ctx, host.toStr);
        Next(host, lines, st, st.(cursor := st.cursor + 1, out := st.out + [text]), b)
  }

  /** Continues the scan from a state further on with the same loops open. */
  function Next(host: Host, lines: seq<string>, st: State, st': State, ghost b: nat): (r: Result<State, Error>)
    requires Progress.Valid(|lines|, st, b) && Progress.Valid(|lines|, st', b)
    requires st'.frames == st.frames && st.cursor < st'.cursor
    ensures r.Ok? ==> r.value.cursor == |lines| && Bounded(r.value.ctx, b)
    decreases |Join(lines)|, 0, Progress.Measure(|lines|, st, b), 0
  {
    Progress.Advance(|lines|, st, st', b);
    Scan(host, lines, st', b)
  }

  /** An `if` or `elif` line with condition `cond` (src/jinja2.ts:79-204, 206-330). */
  function Conditional(host: Host, lines: seq<string>, st: State, cond: string, ghost b: nat): (r: Result<State, Error>)
    requires Progress.Valid(|lines|, st, b) && st.cursor < |lines| && |lines[st.cursor]| > 0
    ensures r.Ok? ==> r.value.cursor == |lines| && Bounded(r.value.ctx, b)
    decreases |Join(lines)|, 0, Progress.Measure(|lines|, st, b), 1
  {
    match host.eval(cond, st.ctx)
    // The error carries the condition as written; the source's message
    // shows it after the rewrite of its variable names (src/jinja2.ts:28).
    case Err(msg) => Err(EvalError(cond, msg))
    case Ok(true) =>
      var col := CollectBranch(lines, st.cursor, st.depth);
      CollectBranchBody(lines, st.cursor, st.depth);
      FilterShorter(lines, st.cursor, col.stop + 1, KeepInBranch);
      var sub :- Build(host, Join(col.body), st.ctx, b);
      var sk := SkipToEndif(lines, col.stop, col.depth);
      Next(host, lines, st, State(sk.stop + 1, st.frames, sk.depth, sub.ctx, st.out + Split(sub.text)), b)
    case Ok(false) =>
      var sk := SkipBranch(lines, st.cursor, st.depth);
      Next(host, lines, st, st.(cursor := sk.stop + 1, depth := sk.depth), b)
  }

  /** An `else` line reached by the main loop (src/jinja2.ts:332-362). */
  function ElseBranch(host: Host, lines: seq<string>, st: State, ghost b: nat): (r: Result<State, Error>)
    requires Progress.Valid(|lines|, st, b) && st.cursor < |lines| && |lines[st.cursor]| > 0
    ensures r.Ok? ==> r.value.cursor == |lines| && Bounded(r.value.ctx, b)
    decreases |Join(lines)|, 0, Progress.Measure(|lines|, st, b), 1
  {
    var col := CollectElse(lines, st.cursor, st.depth);
    CollectElseBody(lines, st.cursor, st.depth);
    FilterShorter(lines, st.cursor, col.stop + 1, KeepInElse);
    var sub :- Build(host, Join(col.body), st.ctx, b);
    Next(host, lines, st, State(col.stop + 1, st.frames, col.depth, sub.ctx, st.out + Split(sub.text)), b)
  }

  /** The state after a `for` line over the list `items` (src/jinja2.ts:387-395):
      a frame at index 0 pushed, the cursor past the line, and the item bound
      to the first element, or left unbound when the list is empty. */
  function Opened(st: State, h: ForHead, items: seq<Value>): (st': State)
    ensures st'.cursor == st.cursor + 1 && st'.depth == st.depth && st'.out == st.out
    ensures st'.frames == st.frames + [Frame(h.list, h.item, st.cursor, 0)]
  {
    var ctx' := if |items| > 0 then st.ctx[h.item := items[0]] else st.ctx - {h.item};
    st.(cursor := st.cursor + 1, frames := st.frames + [Frame(h.list, h.item, st.cursor, 0)], ctx := ctx')
  }

  /** The state after an `endfor` whose innermost loop has a further
      element (src/jinja2.ts:410-416): that frame's index advanced, the item
      bound to the next element, and the cursor on the line after the
      loop's `for` line. */
  function Rewound(st: State): (st': State)
    requires |st.frames| > 0 && st.frames[|st.frames| - 1].listVar in st.ctx
    requires HasNext(st.ctx[st.frames[|st.frames| - 1].listVar], st.frames[|st.frames| - 1].index)
    ensures |st'.frames| == |st.frames| && st'.depth == st.depth && st'.out == st.out
  {
    var m := |st.frames|;
    var f := st.frames[m - 1];
    var e := Element(st.ctx[f.listVar], f.index + 1);
    State(f.start + 1, st.frames[..m - 1] + [f.(index := f.index + 1)], st.depth, st.ctx[f.itemVar := e], st.out)
  }

  /** The state after an `endfor` whose innermost loop is exhausted
      (src/jinja2.ts:419-420): the item variable deleted, that frame
      popped, the cursor past the line. */
  function Exited(st: State): (st': State)
    requires |st.frames| > 0
    ensures st'.frames == st.frames[..|st.frames| - 1] && st'.cursor == st.cursor + 1
    ensures st'.depth == st.depth && st'.out == st.out
  {
    var f := st.frames[|st.frames| - 1];
    State(st.cursor + 1, st.frames[..|st.frames| - 1], st.depth, st.ctx - {f.itemVar}, st.out)
  }

  /** A `for` line (src/jinja2.ts:365-396): the list must be bound and be a
      list; then the loop opens. */
  function OpenLoop(host: Host, lines: seq<string>, st: State, h: ForHead, ghost b: nat): (r: Result<State, Error>)
    requires Progress.Valid(|lines|, st, b) && st.cursor < |lines|
    ensures r.Ok? ==> r.value.cursor == |lines| && Bounded(r.value.ctx, b)
    decreases |Join(lines)|, 0, Progress.Measure(|lines|, st, b), 1
  {
    if h.list !in st.ctx then Err(UndefinedLoopList(h.list))
    else
      match st.ctx[h.list]
      case List(items) =>
        var st' := Opened(st, h, items);
        assert Bounded(st'.ctx, b) by {
          if |items| > 0 {
            BindElement(st.ctx, h.list, items, 0, h.item, b);
          }
        }
        assert st'.frames[..|st.frames|] == st.frames;
        Progress.Push(|lines|, st, st', b);
        Scan(host, lines, st', b)
      case _ => Err(NotArray(h.list))
  }

  /** An `endfor` line (src/jinja2.ts:398-422): it needs an open loop and
      that loop's list variable still bound; then the innermost loop either
      rewinds or exits. */
  function CloseLoop(host: Host, lines: seq<string>, st: State, ghost b: nat): (r: Result<State, Error>)
    requires Progress.Valid(|lines|, st, b) && st.cursor < |lines|
    ensures r.Ok? ==> r.value.cursor == |lines| && Bounded(r.value.ctx, b)
    decreases |Join(lines)|, 0, Progress.Measure(|lines|, st, b), 1
  {
    if |st.frames| == 0 then Err(UnmatchedEndfor(st.cursor + 1))
    else
      var m := |st.frames|;
      var f := st.frames[m - 1];
      if f.listVar !in st.ctx then Err(LoopListLost(f.listVar))
      else if HasNext(st.ctx[f.listVar], f.index) then
        var st' := Rewound(st);
        assert st'.frames[..m - 1] == st.frames[..m - 1];
        Progress.Rewind(|lines|, st, st', b);
        Scan(host, lines, st', b)
      else
        var st' := Exited(st);
        Progress.Pop(|lines|, st, st', b);
        Scan(host, lines, st', b)
  }
}
