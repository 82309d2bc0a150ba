/** Conditionals: how the scans of src/jinja2.ts:79-362 select one branch
    body and where the main loop resumes, first for any line positions and
    then for whole `if`/`elif`/`else` templates with plain bodies. */
module Branches {
  import opened Wrappers
  import opened Lines
  import opened Patterns
  import opened Values
  import opened ScanState
  import opened Engine
  import opened Content
  import Progress

  /** The main loop treats `line` as an `if` or `elif` with condition `cond`. */
  predicate DispatchesCond(line: string, cond: string) {
    !IsComment(line) && (IfCondition(line) == Some(cond) || (!IsIf(line) && ElifCondition(line) == Some(cond)))
  }

  /** The main loop treats `line` as an `else`. */
  predicate DispatchesElse(line: string) {
    !IsComment(line) && !IsIf(line) && !IsElif(line) && IsElse(line)
  }

  /** `lines[j]` is the first line after `lines[i]` that ends a branch scan
      started there with the counter at zero. */
  predicate FirstBranchEnd(lines: seq<string>, i: nat, j: nat) {
    && i < j < |lines|
    && EndsBranch(lines[j], DepthAt(lines, i, j, 0, BranchDepth))
    && forall k :: i < k < j ==> !EndsBranch(lines[k], DepthAt(lines, i, k, 0, BranchDepth))
  }

  /** `lines[e]` is the first `endif` after `lines[i]` that ends an
      endif-seeking scan started there with the counter at zero. */
  predicate FirstEndif(lines: seq<string>, i: nat, e: nat) {
    && i < e < |lines|
    && EndsAtEndif(lines[e], DepthAt(lines, i, e, 0, EndifDepth))
    && forall k :: i < k < e ==> !EndsAtEndif(lines[k], DepthAt(lines, i, k, 0, EndifDepth))
  }

  /** No `endif` after `lines[i]` ends an endif-seeking scan started there. */
  predicate NoEndifAfter(lines: seq<string>, i: nat) {
    forall k :: i < k < |lines| ==> !EndsAtEndif(lines[k], DepthAt(lines, i, k, 0, EndifDepth))
  }

  /** A scan over lines on which `step` keeps a zero counter at zero still
      holds zero. */
  lemma {:induction false} DepthFlat(lines: seq<string>, i: nat, k: nat, step: (string, nat) -> nat)
    requires k <= |lines|
    requires forall m :: i < m < k ==> step(lines[m], 0) == 0
    ensures DepthAt(lines, i, k, 0, step) == 0
    decreases k - i
  {
    if k > i + 1 {
      DepthFlat(lines, i + 1, k, step);
    }
  }

  /** Without branch markers in between, the first branch marker that is
      no `if` ends the branch. */
  lemma {:induction false} PlainBranchEnd(lines: seq<string>, i: nat, j: nat)
    requires i < j < |lines| && EndsBranch(lines[j], 0)
    requires forall k :: i < k < j ==> KeepInBranch(lines[k])
    ensures FirstBranchEnd(lines, i, j)
  {
    forall k | i < k <= j
      ensures DepthAt(lines, i, k, 0, BranchDepth) == 0
    {
      DepthFlat(lines, i, k, BranchDepth);
    }
  }

  /** Without `if` and `endif` lines in between, the first `endif` ends the scan. */
  lemma {:induction false} PlainEndif(lines: seq<string>, i: nat, e: nat)
    requires i < e < |lines| && EndsAtEndif(lines[e], 0)
    requires forall k :: i < k < e ==> KeepInElse(lines[k])
    ensures FirstEndif(lines, i, e)
  {
    forall k | i < k <= e
      ensures DepthAt(lines, i, k, 0, EndifDepth) == 0
    {
      DepthFlat(lines, i, k, EndifDepth);
    }
  }

  lemma {:induction false} PlainNoEndif(lines: seq<string>, i: nat)
    requires forall k :: i < k < |lines| ==> KeepInElse(lines[k])
    ensures NoEndifAfter(lines, i)
  {
    forall k | i < k < |lines|
      ensures DepthAt(lines, i, k, 0, EndifDepth) == 0
    {
      DepthFlat(lines, i, k, EndifDepth);
    }
  }

  /** The body gathered up to the ending line is the lines before it, when
      all of them are kept and the ending line is not. */
  lemma {:induction false} PlainBody(lines: seq<string>, i: nat, j: nat, keep: string -> bool)
    requires i < j < |lines| && !keep(lines[j])
    requires forall k :: i < k < j ==> keep(lines[k])
    ensures Filter(lines[i + 1..j + 1], keep) == lines[i + 1..j]
  {
    assert lines[i + 1..j + 1] == lines[i + 1..j] + [lines[j]];
    FilterAppend(lines[i + 1..j], [lines[j]], keep);
    FilterAll(lines[i + 1..j], keep);
    FilterCons([lines[j]], keep);
  }

  /** The body scan of a taken branch passes over no line that ends the
      branch: the only ending line it reaches is where it stops, with the
      counter at zero (src/jinja2.ts:90-127). */
  lemma {:induction false} CollectBranchFirst(lines: seq<string>, i: nat, depth: nat)
    requires i < |lines|
    ensures var r := CollectBranch(lines, i, depth);
      forall k :: i < k <= r.stop ==> EndsBranch(lines[k], DepthAt(lines, i, k, depth, BranchDepth)) ==> k == r.stop && r.depth == 0
    decreases |lines| - i
  {
    if i + 1 < |lines| && !EndsBranch(lines[i + 1], depth) {
      CollectBranchFirst(lines, i + 1, BranchDepth(lines[i + 1], depth));
    }
  }

  /** The same for the body scan of an `else` (src/jinja2.ts:338-357). */
  lemma {:induction false} CollectElseFirst(lines: seq<string>, i: nat, depth: nat)
    requires i < |lines|
    ensures var r := CollectElse(lines, i, depth);
      forall k :: i < k <= r.stop ==> EndsAtEndif(lines[k], DepthAt(lines, i, k, depth, EndifDepth)) ==> k == r.stop && r.depth == 0
    decreases |lines| - i
  {
    if i + 1 < |lines| && !EndsAtEndif(lines[i + 1], depth) {
      CollectElseFirst(lines, i + 1, EndifDepth(lines[i + 1], depth));
    }
  }

  /** The same for the skip after a taken body (src/jinja2.ts:135-153). */
  lemma {:induction false} SkipToEndifFirst(lines: seq<string>, i: nat, depth: nat)
    requires i < |lines|
    ensures var r := SkipToEndif(lines, i, depth);
      forall k :: i < k <= r.stop ==> EndsAtEndif(lines[k], DepthAt(lines, i, k, depth, EndifDepth)) ==> k == r.stop && r.depth == 0
    decreases |lines| - i
  {
    if i + 1 < |lines| && !EndsAtEndif(lines[i + 1], depth) {
      SkipToEndifFirst(lines, i + 1, EndifDepth(lines[i + 1], depth));
    }
  }

  /** The skip of a false branch passes over no line that ends the branch;
      it stops on an ending line only when that line is an `endif`
      (src/jinja2.ts:160-202). */
  lemma {:induction false} SkipBranchFirst(lines: seq<string>, i: nat, depth: nat)
    requires i < |lines|
    ensures var r := SkipBranch(lines, i, depth);
      forall k :: i < k <= r.stop ==> EndsBranch(lines[k], DepthAt(lines, i, k, depth, BranchDepth)) ==>
        k == r.stop && !IsElif(lines[k]) && !IsElse(lines[k]) && r.depth == 0
    decreases |lines| - i
  {
    if i + 1 < |lines| && !EndsBranch(lines[i + 1], depth) {
      SkipBranchFirst(lines, i + 1, BranchDepth(lines[i + 1], depth));
    }
  }

  /** Each scan started with the counter at zero stops exactly at the first
      line that ends it. */
  lemma {:induction false} CollectBranchStops(lines: seq<string>, i: nat, j: nat)
    requires FirstBranchEnd(lines, i, j)
    ensures CollectBranch(lines, i, 0).stop == j && CollectBranch(lines, i, 0).depth == 0
    ensures CollectBranch(lines, i, 0).body == Filter(lines[i + 1..j + 1], KeepInBranch)
  {
    CollectBranchFirst(lines, i, 0);
    CollectBranchBody(lines, i, 0);
  }

  lemma {:induction false} CollectElseStops(lines: seq<string>, i: nat, e: nat)
    requires FirstEndif(lines, i, e)
    ensures CollectElse(lines, i, 0).stop == e && CollectElse(lines, i, 0).depth == 0
    ensures CollectElse(lines, i, 0).body == Filter(lines[i + 1..e + 1], KeepInElse)
  {
    CollectElseFirst(lines, i, 0);
    CollectElseBody(lines, i, 0);
  }

  lemma {:induction false} SkipToEndifStops(lines: seq<string>, i: nat, e: nat)
    requires FirstEndif(lines, i, e)
    ensures SkipToEndif(lines, i, 0) == Skipped(e, 0)
  {
    SkipToEndifFirst(lines, i, 0);
  }

  lemma {:induction false} SkipToEndifRunsOut(lines: seq<string>, i: nat)
    requires i < |lines| && NoEndifAfter(lines, i)
    ensures SkipToEndif(lines, i, 0).stop + 1 == |lines|
  {
    SkipToEndifFirst(lines, i, 0);
  }

  /** A false branch's skip steps back before an `elif` or `else` and stops
      on an `endif`. */
  lemma {:induction false} SkipBranchStops(lines: seq<string>, i: nat, j: nat)
    requires FirstBranchEnd(lines, i, j)
    ensures SkipBranch(lines, i, 0) == Skipped(if IsElif(lines[j]) || IsElse(lines[j]) then j - 1 else j, 0)
  {
    SkipBranchFirst(lines, i, 0);
  }

  /** The text a finished scan stands for: its output lines joined. */
  function Output(r: Result<State, Error>): (t: Result<string, Error>)
    ensures t.Ok? <==> r.Ok?
  {
    var fin :- r;
    Ok(Join(fin.out))
  }

  /** The start of `build` on a template given as its lines. */
  lemma {:induction false} RenderLines(host: Host, lines: seq<string>, ctx: Context)
    requires |lines| >= 1 && AllNoNewline(lines)
    ensures Render(host, Join(lines), ctx) == Output(Scan(host, lines, State(0, [], 0, ctx, []), CtxBound(ctx)))
  {
    SplitOfJoin(lines);
  }

  /** The main loop hands an `if`/`elif` line to the conditional. */
  lemma {:induction false} ScanAtCond(host: Host, lines: seq<string>, st: State, cond: string, b: nat)
    requires Progress.Valid(|lines|, st, b) && st.cursor < |lines| && DispatchesCond(lines[st.cursor], cond)
    ensures |lines[st.cursor]| > 0 && st.depth == 0
    ensures Scan(host, lines, st, b) == Conditional(host, lines, st, cond, b)
  {
    var line := lines[st.cursor];
    LeftmostSpec(line, 0, (l: string, p: nat) => KeywordArgAt(l, p, "if"));
    LeftmostSpec(line, 0, (l: string, p: nat) => KeywordArgAt(l, p, "elif"));
  }

  /** The main loop hands an `else` line to the else branch. */
  lemma {:induction false} ScanAtElse(host: Host, lines: seq<string>, st: State, b: nat)
    requires Progress.Valid(|lines|, st, b) && st.cursor < |lines| && DispatchesElse(lines[st.cursor])
    ensures |lines[st.cursor]| > 0 && st.depth == 0
    ensures Scan(host, lines, st, b) == ElseBranch(host, lines, st, b)
  {
  }

  /** Resuming after line `e` with the same loops and a bounded context
      keeps the scan invariant. */
  lemma {:induction false} ResumeValid(n: nat, st: State, e: nat, ctx: Context, out: seq<string>, b: nat)
    requires Progress.Valid(n, st, b) && st.cursor <= e < n && Bounded(ctx, b)
    ensures Progress.Valid(n, State(e + 1, st.frames, 0, ctx, out), b)
  {
  }

  /** One step of a true condition whose body scan stops at `j` and whose
      skip stops at `e`. */
  lemma {:induction false} CondTakenStep(host: Host, lines: seq<string>, st: State, cond: string, b: nat, j: nat, e: nat, sub: Rendered)
    requires Progress.Valid(|lines|, st, b) && st.cursor < |lines| && |lines[st.cursor]| > 0 && st.depth == 0
    requires host.eval(cond, st.ctx) == Ok(true)
    requires CollectBranch(lines, st.cursor, 0).stop == j && CollectBranch(lines, st.cursor, 0).depth == 0
    requires Build(host, Join(CollectBranch(lines, st.cursor, 0).body), st.ctx, b) == Ok(sub)
    requires SkipToEndif(lines, j, 0) == Skipped(e, 0)
    requires Progress.Valid(|lines|, State(e + 1, st.frames, 0, sub.ctx, st.out + Split(sub.text)), b)
    ensures Conditional(host, lines, st, cond, b) == Scan(host, lines, State(e + 1, st.frames, 0, sub.ctx, st.out + Split(sub.text)), b)
  {
  }

  /** The same when no `endif` stops the skip: the scan ends there. */
  lemma {:induction false} CondTakenToEndStep(host: Host, lines: seq<string>, st: State, cond: string, b: nat, j: nat, sub: Rendered)
    requires Progress.Valid(|lines|, st, b) && st.cursor < |lines| && |lines[st.cursor]| > 0 && st.depth == 0
    requires host.eval(cond, st.ctx) == Ok(true)
    requires CollectBranch(lines, st.cursor, 0).stop == j && CollectBranch(lines, st.cursor, 0).depth == 0
    requires Build(host, Join(CollectBranch(lines, st.cursor, 0).body), st.ctx, b) == Ok(sub)
    requires SkipToEndif(lines, j, 0).stop + 1 == |lines|
    ensures Conditional(host, lines, st, cond, b) ==
      Ok(State(|lines|, st.frames, SkipToEndif(lines, j, 0).depth, sub.ctx, st.out + Split(sub.text)))
  {
    var fin := State(|lines|, st.frames, SkipToEndif(lines, j, 0).depth, sub.ctx, st.out + Split(sub.text));
    ScanDone(host, lines, fin, b);
  }

  /** At the end of input the scan returns its state. */
  lemma {:induction false} ScanDone(host: Host, lines: seq<string>, st: State, b: nat)
    requires Progress.Valid(|lines|, st, b) && st.cursor == |lines|
    ensures Scan(host, lines, st, b) == Ok(st)
  {
  }

  lemma {:induction false} CondTakenFails(host: Host, lines: seq<string>, st: State, cond: string, b: nat, x: Error)
    requires Progress.Valid(|lines|, st, b) && st.cursor < |lines| && |lines[st.cursor]| > 0 && st.depth == 0
    requires host.eval(cond, st.ctx) == Ok(true)
    requires Build(host, Join(CollectBranch(lines, st.cursor, 0).body), st.ctx, b) == Err(x)
    ensures Conditional(host, lines, st, cond, b) == Err(x)
  {
  }

  /** One step of a false condition whose skip stops at `s`. */
  lemma {:induction false} CondFalseStep(host: Host, lines: seq<string>, st: State, cond: string, b: nat, s: nat)
    requires Progress.Valid(|lines|, st, b) && st.cursor < |lines| && |lines[st.cursor]| > 0 && st.depth == 0
    requires host.eval(cond, st.ctx) == Ok(false)
    requires SkipBranch(lines, st.cursor, 0) == Skipped(s, 0)
    requires Progress.Valid(|lines|, st.(cursor := s + 1), b)
    ensures Conditional(host, lines, st, cond, b) == Scan(host, lines, st.(cursor := s + 1), b)
  {
    assert st.(cursor := s + 1, depth := 0) == st.(cursor := s + 1);
  }

  /** One step of an `else` whose body scan stops at `e`. */
  lemma {:induction false} ElseStep(host: Host, lines: seq<string>, st: State, b: nat, e: nat, sub: Rendered)
    requires Progress.Valid(|lines|, st, b) && st.cursor < |lines| && |lines[st.cursor]| > 0 && st.depth == 0
    requires CollectElse(lines, st.cursor, 0).stop == e && CollectElse(lines, st.cursor, 0).depth == 0
    requires Build(host, Join(CollectElse(lines, st.cursor, 0).body), st.ctx, b) == Ok(sub)
    requires Progress.Valid(|lines|, State(e + 1, st.frames, 0, sub.ctx, st.out + Split(sub.text)), b)
    ensures ElseBranch(host, lines, st, b) == Scan(host, lines, State(e + 1, st.frames, 0, sub.ctx, st.out + Split(sub.text)), b)
  {
  }

  lemma {:induction false} ElseFails(host: Host, lines: seq<string>, st: State, b: nat, x: Error)
    requires Progress.Valid(|lines|, st, b) && st.cursor < |lines| && |lines[st.cursor]| > 0 && st.depth == 0
    requires Build(host, Join(CollectElse(lines, st.cursor, 0).body), st.ctx, b) == Err(x)
    ensures ElseBranch(host, lines, st, b) == Err(x)
  {
  }

  /** A taken `if`/`elif` gathers its body up to the first line that ends
      the branch, renders it with a recursive `build` on the same context,
      splices the output in, and resumes after the first `endif` that
      follows the ending line, whichever marker that line was
      (src/jinja2.ts:88-153). */
  lemma {:induction false} TakenBranch(host: Host, lines: seq<string>, st: State, cond: string, j: nat, e: nat, b: nat, sub: Rendered)
    requires Progress.Valid(|lines|, st, b) && st.cursor < |lines|
    requires DispatchesCond(lines[st.cursor], cond) && host.eval(cond, st.ctx) == Ok(true)
    requires FirstBranchEnd(lines, st.cursor, j) && FirstEndif(lines, j, e)
    requires Build(host, Join(Filter(lines[st.cursor + 1..j + 1], KeepInBranch)), st.ctx, b) == Ok(sub)
    ensures Progress.Valid(|lines|, State(e + 1, st.frames, 0, sub.ctx, st.out + Split(sub.text)), b)
    ensures Scan(host, lines, st, b) == Scan(host, lines, State(e + 1, st.frames, 0, sub.ctx, st.out + Split(sub.text)), b)
  {
    CollectBranchStops(lines, st.cursor, j);
    SkipToEndifStops(lines, j, e);
    TakenAt(host, lines, st, cond, j, e, b, sub);
  }

  lemma {:induction false} TakenAt(host: Host, lines: seq<string>, st: State, cond: string, j: nat, e: nat, b: nat, sub: Rendered)
    requires Progress.Valid(|lines|, st, b) && st.cursor < |lines|
    requires DispatchesCond(lines[st.cursor], cond) && host.eval(cond, st.ctx) == Ok(true)
    requires CollectBranch(lines, st.cursor, 0).stop == j && CollectBranch(lines, st.cursor, 0).depth == 0
    requires Build(host, Join(CollectBranch(lines, st.cursor, 0).body), st.ctx, b) == Ok(sub)
    requires SkipToEndif(lines, j, 0) == Skipped(e, 0) && e < |lines|
    ensures Progress.Valid(|lines|, State(e + 1, st.frames, 0, sub.ctx, st.out + Split(sub.text)), b)
    ensures Scan(host, lines, st, b) == Scan(host, lines, State(e + 1, st.frames, 0, sub.ctx, st.out + Split(sub.text)), b)
  {
    ScanAtCond(host, lines, st, cond, b);
    ResumeValid(|lines|, st, e, sub.ctx, st.out + Split(sub.text), b);
    CondTakenStep(host, lines, st, cond, b, j, e, sub);
  }

  /** A taken branch whose body fails fails the render. */
  lemma {:induction false} TakenBranchFails(host: Host, lines: seq<string>, st: State, cond: string, j: nat, b: nat, x: Error)
    requires Progress.Valid(|lines|, st, b) && st.cursor < |lines|
    requires DispatchesCond(lines[st.cursor], cond) && host.eval(cond, st.ctx) == Ok(true)
    requires FirstBranchEnd(lines, st.cursor, j)
    requires Build(host, Join(Filter(lines[st.cursor + 1..j + 1], KeepInBranch)), st.ctx, b) == Err(x)
    ensures Scan(host, lines, st, b) == Err(x)
  {
    ScanAtCond(host, lines, st, cond, b);
    CollectBranchStops(lines, st.cursor, j);
    CondTakenFails(host, lines, st, cond, b, x);
  }

  /** When no `endif` follows the line that ended a taken branch, everything
      after that line is skipped: the output ends with the branch's. */
  lemma {:induction false} TakenBranchToEnd(host: Host, lines: seq<string>, st: State, cond: string, j: nat, b: nat, sub: Rendered)
    requires Progress.Valid(|lines|, st, b) && st.cursor < |lines|
    requires DispatchesCond(lines[st.cursor], cond) && host.eval(cond, st.ctx) == Ok(true)
    requires FirstBranchEnd(lines, st.cursor, j) && NoEndifAfter(lines, j)
    requires Build(host, Join(Filter(lines[st.cursor + 1..j + 1], KeepInBranch)), st.ctx, b) == Ok(sub)
    ensures Scan(host, lines, st, b) ==
      Ok(State(|lines|, st.frames, SkipToEndif(lines, j, 0).depth, sub.ctx, st.out + Split(sub.text)))
  {
    ScanAtCond(host, lines, st, cond, b);
    CollectBranchStops(lines, st.cursor, j);
    SkipToEndifRunsOut(lines, j);
    CondTakenToEndStep(host, lines, st, cond, b, j, sub);
  }

  /** No line after `lines[i]` ends a branch opened there: the conditional
      is never closed. */
  predicate NoBranchEnd(lines: seq<string>, i: nat) {
    forall k :: i < k < |lines| ==> !EndsBranch(lines[k], DepthAt(lines, i, k, 0, BranchDepth))
  }

  /** Both scans of a branch that is never closed run to the last line, and
      the body is every later line that is none of the branch markers. */
  lemma {:induction false} BranchRunsOut(lines: seq<string>, i: nat)
    requires i < |lines| && NoBranchEnd(lines, i)
    ensures SkipBranch(lines, i, 0).stop + 1 == |lines|
    ensures CollectBranch(lines, i, 0).stop + 1 == |lines|
    ensures CollectBranch(lines, i, 0).body == Filter(lines[i + 1..], KeepInBranch)
  {
    CollectBranchBody(lines, i, 0);
    assert lines[i + 1..|lines|] == lines[i + 1..];
  }

  /** A false `if`/`elif` that nothing closes skips the rest of the input:
      the render ends without an error, its output, context and loops as
      they were before the line (src/jinja2.ts:158-202). */
  lemma {:induction false} FalseRunsOut(host: Host, lines: seq<string>, st: State, cond: string, b: nat)
    requires Progress.Valid(|lines|, st, b) && st.cursor < |lines|
    requires DispatchesCond(lines[st.cursor], cond) && host.eval(cond, st.ctx) == Ok(false)
    requires NoBranchEnd(lines, st.cursor)
    ensures Scan(host, lines, st, b) == Ok(st.(cursor := |lines|, depth := SkipBranch(lines, st.cursor, 0).depth))
  {
    ScanAtCond(host, lines, st, cond, b);
    BranchRunsOut(lines, st.cursor);
    ScanDone(host, lines, st.(cursor := |lines|, depth := SkipBranch(lines, st.cursor, 0).depth), b);
  }

  /** A true `if`/`elif` that nothing closes takes every later line that is
      no branch marker as its body: the render ends without an error of its
      own, with the body's output appended (src/jinja2.ts:88-153). */
  lemma {:induction false} TakenRunsOut(host: Host, lines: seq<string>, st: State, cond: string, b: nat, sub: Rendered)
    requires Progress.Valid(|lines|, st, b) && st.cursor < |lines|
    requires DispatchesCond(lines[st.cursor], cond) && host.eval(cond, st.ctx) == Ok(true)
    requires NoBranchEnd(lines, st.cursor)
    requires Build(host, Join(Filter(lines[st.cursor + 1..], KeepInBranch)), st.ctx, b) == Ok(sub)
    ensures Scan(host, lines, st, b) ==
      Ok(State(|lines|, st.frames, CollectBranch(lines, st.cursor, 0).depth, sub.ctx, st.out + Split(sub.text)))
  {
    ScanAtCond(host, lines, st, cond, b);
    BranchRunsOut(lines, st.cursor);
    var col := CollectBranch(lines, st.cursor, 0);
    assert SkipToEndif(lines, col.stop, col.depth) == Skipped(col.stop, col.depth);
    ScanDone(host, lines, State(|lines|, st.frames, col.depth, sub.ctx, st.out + Split(sub.text)), b);
  }

  /** The same branch whose body fails fails the render. */
  lemma {:induction false} TakenRunsOutFails(host: Host, lines: seq<string>, st: State, cond: string, b: nat, x: Error)
    requires Progress.Valid(|lines|, st, b) && st.cursor < |lines|
    requires DispatchesCond(lines[st.cursor], cond) && host.eval(cond, st.ctx) == Ok(true)
    requires NoBranchEnd(lines, st.cursor)
    requires Build(host, Join(Filter(lines[st.cursor + 1..], KeepInBranch)), st.ctx, b) == Err(x)
    ensures Scan(host, lines, st, b) == Err(x)
  {
    ScanAtCond(host, lines, st, cond, b);
    BranchRunsOut(lines, st.cursor);
    CondTakenFails(host, lines, st, cond, b, x);
  }

  /** Moving the cursor forward within the input with no loop change keeps
      the scan invariant. */
  lemma {:induction false} SkipValid(n: nat, st: State, r: nat, b: nat)
    requires Progress.Valid(n, st, b) && st.cursor < r <= n && st.depth == 0
    ensures Progress.Valid(n, st.(cursor := r), b)
  {
  }

  /** A false `if`/`elif` skips to the first line `j` that ends the branch:
      the main loop goes on at `r`, which is `j` itself when it is an `elif`
      or `else` and the line after it when it is an `endif`
      (src/jinja2.ts:158-202). */
  lemma {:induction false} FalseBranch(host: Host, lines: seq<string>, st: State, cond: string, j: nat, r: nat, b: nat)
    requires Progress.Valid(|lines|, st, b) && st.cursor < |lines|
    requires DispatchesCond(lines[st.cursor], cond) && host.eval(cond, st.ctx) == Ok(false)
    requires FirstBranchEnd(lines, st.cursor, j)
    requires r == if IsElif(lines[j]) || IsElse(lines[j]) then j else j + 1
    ensures Progress.Valid(|lines|, st.(cursor := r), b)
    ensures Scan(host, lines, st, b) == Scan(host, lines, st.(cursor := r), b)
  {
    ScanAtCond(host, lines, st, cond, b);
    SkipBranchStops(lines, st.cursor, j);
    SkipValid(|lines|, st, r, b);
    FalseStepTo(host, lines, st, cond, r, b);
  }

  lemma {:induction false} FalseStepTo(host: Host, lines: seq<string>, st: State, cond: string, r: nat, b: nat)
    requires Progress.Valid(|lines|, st, b) && st.cursor < |lines|
    requires DispatchesCond(lines[st.cursor], cond) && host.eval(cond, st.ctx) == Ok(false)
    requires 0 < r && SkipBranch(lines, st.cursor, 0) == Skipped(r - 1, 0)
    requires Progress.Valid(|lines|, st.(cursor := r), b)
    ensures Scan(host, lines, st, b) == Scan(host, lines, st.(cursor := r), b)
  {
    ScanAtCond(host, lines, st, cond, b);
    CondFalseStep(host, lines, st, cond, b, r - 1);
  }

  /** A condition the evaluator rejects fails the whole render. */
  lemma {:induction false} ConditionFails(host: Host, lines: seq<string>, st: State, cond: string, b: nat)
    requires Progress.Valid(|lines|, st, b) && st.cursor < |lines|
    requires DispatchesCond(lines[st.cursor], cond) && host.eval(cond, st.ctx).Err?
    ensures Scan(host, lines, st, b) == Err(EvalError(cond, host.eval(cond, st.ctx).error))
  {
    ScanAtCond(host, lines, st, cond, b);
  }

  /** An `else` reached by the main loop gathers its body up to the first
      `endif` that ends it, renders it like a taken branch and resumes after
      that `endif` (src/jinja2.ts:332-362). */
  lemma {:induction false} ElseTaken(host: Host, lines: seq<string>, st: State, e: nat, b: nat, sub: Rendered)
    requires Progress.Valid(|lines|, st, b) && st.cursor < |lines|
    requires DispatchesElse(lines[st.cursor]) && FirstEndif(lines, st.cursor, e)
    requires Build(host, Join(Filter(lines[st.cursor + 1..e + 1], KeepInElse)), st.ctx, b) == Ok(sub)
    ensures Progress.Valid(|lines|, State(e + 1, st.frames, 0, sub.ctx, st.out + Split(sub.text)), b)
    ensures Scan(host, lines, st, b) == Scan(host, lines, State(e + 1, st.frames, 0, sub.ctx, st.out + Split(sub.text)), b)
  {
    ScanAtElse(host, lines, st, b);
    CollectElseStops(lines, st.cursor, e);
    ResumeValid(|lines|, st, e, sub.ctx, st.out + Split(sub.text), b);
    ElseStep(host, lines, st, b, e, sub);
  }

  lemma {:induction false} ElseTakenFails(host: Host, lines: seq<string>, st: State, e: nat, b: nat, x: Error)
    requires Progress.Valid(|lines|, st, b) && st.cursor < |lines|
    requires DispatchesElse(lines[st.cursor]) && FirstEndif(lines, st.cursor, e)
    requires Build(host, Join(Filter(lines[st.cursor + 1..e + 1], KeepInElse)), st.ctx, b) == Err(x)
    ensures Scan(host, lines, st, b) == Err(x)
  {
    ScanAtElse(host, lines, st, b);
    CollectElseStops(lines, st.cursor, e);
    ElseFails(host, lines, st, b, x);
  }

  /** The scan of an `else` that no `endif` closes runs to the last line,
      and the body is every later line that is neither `if` nor `endif`. */
  lemma {:induction false} ElseBodyRunsOut(lines: seq<string>, i: nat)
    requires i < |lines| && NoEndifAfter(lines, i)
    ensures CollectElse(lines, i, 0).stop + 1 == |lines|
    ensures CollectElse(lines, i, 0).body == Filter(lines[i + 1..], KeepInElse)
  {
    CollectElseBody(lines, i, 0);
    assert lines[i + 1..|lines|] == lines[i + 1..];
  }

  /** An `else` that no `endif` closes takes every later line that is
      neither `if` nor `endif` as its body: the render ends without an error
      of its own, with the body's output appended (src/jinja2.ts:332-361). */
  lemma {:induction false} ElseRunsOut(host: Host, lines: seq<string>, st: State, b: nat, sub: Rendered)
    requires Progress.Valid(|lines|, st, b) && st.cursor < |lines|
    requires DispatchesElse(lines[st.cursor]) && NoEndifAfter(lines, st.cursor)
    requires Build(host, Join(Filter(lines[st.cursor + 1..], KeepInElse)), st.ctx, b) == Ok(sub)
    ensures Scan(host, lines, st, b) ==
      Ok(State(|lines|, st.frames, CollectElse(lines, st.cursor, 0).depth, sub.ctx, st.out + Split(sub.text)))
  {
    ScanAtElse(host, lines, st, b);
    ElseBodyRunsOut(lines, st.cursor);
    ScanDone(host, lines, State(|lines|, st.frames, CollectElse(lines, st.cursor, 0).depth, sub.ctx, st.out + Split(sub.text)), b);
  }

  /** The same `else` whose body fails fails the render. */
  lemma {:induction false} ElseRunsOutFails(host: Host, lines: seq<string>, st: State, b: nat, x: Error)
    requires Progress.Valid(|lines|, st, b) && st.cursor < |lines|
    requires DispatchesElse(lines[st.cursor]) && NoEndifAfter(lines, st.cursor)
    requires Build(host, Join(Filter(lines[st.cursor + 1..], KeepInElse)), st.ctx, b) == Err(x)
    ensures Scan(host, lines, st, b) == Err(x)
  {
    ScanAtElse(host, lines, st, b);
    ElseBodyRunsOut(lines, st.cursor);
    ElseFails(host, lines, st, b, x);
  }

  /** The body lines strictly between `lines[i]` and `lines[j]` are
      passive and carry no branch marker. */
  predicate PlainBetween(lines: seq<string>, i: nat, j: nat) {
    forall k :: i < k < j && k < |lines| ==> IsPassive(lines[k]) && KeepInBranch(lines[k])
  }

  predicate PassiveFrom(lines: seq<string>, i: nat) {
    forall k :: i <= k < |lines| ==> IsPassive(lines[k])
  }

  /** The rendering of a template whose selected body renders to `body` and
      whose lines after the conditional render to `rest`: the body's output
      joined, then the rest, each failure passed on. */
  function Splice(body: Result<seq<string>, Error>, rest: Result<seq<string>, Error>): (r: Result<string, Error>)
    ensures r.Ok? <==> body.Ok? && rest.Ok?
    ensures body.Err? ==> r == Err(body.error)
  {
    var o :- body;
    var tail :- rest;
    Ok(Join([Join(o)] + tail))
  }

  /** A plain body is a run of passive lines without line breaks. */
  lemma {:induction false} PlainBodyLines(lines: seq<string>, i: nat, j: nat)
    requires i < j <= |lines| && AllNoNewline(lines) && PlainBetween(lines, i, j)
    ensures AllPassive(lines[i + 1..j]) && AllNoNewline(lines[i + 1..j])
  {
    var body := lines[i + 1..j];
    forall k | 0 <= k < |body|
      ensures IsPassive(body[k]) && NoNewline(body[k])
    {
      assert body[k] == lines[i + 1 + k];
    }
  }

  /** The text of output lines `out` followed by a rendering `r`. */
  function Appended(out: seq<string>, r: Result<seq<string>, Error>): (t: Result<string, Error>)
    ensures t.Ok? <==> r.Ok?
  {
    var tail :- r;
    Ok(Join(out + tail))
  }

  /** Passing over passive lines to the end of input appends their
      rendering to the output. */
  lemma {:induction false} FinishTail(host: Host, lines: seq<string>, st: State, b: nat)
    requires Progress.Valid(|lines|, st, b) && PassiveFrom(lines, st.cursor)
    ensures Output(Scan(host, lines, st, b)) == Appended(st.out, RenderPassive(lines[st.cursor..], st.ctx, host.toStr))
  {
    assert lines[st.cursor..|lines|] == lines[st.cursor..];
    ScanPassive(host, lines, st, |lines|, b);
    match RenderPassive(lines[st.cursor..], st.ctx, host.toStr)
    case Err(x) =>
    case Ok(tail) =>
      var fin := st.(cursor := |lines|, out := st.out + tail);
      assert Scan(host, lines, fin, b) == Ok(fin);
  }

  /** Output lines that are a body's rendering split at line breaks, then a
      rendering of the rest: the spliced text. */
  lemma {:induction false} AppendedSplice(o: seq<string>, r: Result<seq<string>, Error>)
    ensures Appended([] + Split(Join(o)), r) == Splice(Ok(o), r)
  {
    JoinOfSplit(Join(o));
    assert [] + Split(Join(o)) == Split(Join(o));
    match r
    case Err(x) =>
    case Ok(tail) =>
      JoinSpliceFront(Join(o), tail);
  }

  /** Resuming with the output of a body rendered to `o` and passive lines
      after: the spliced text. */
  lemma {:induction false} ResumeRender(host: Host, lines: seq<string>, st: State, b: nat, o: seq<string>)
    requires Progress.Valid(|lines|, st, b) && PassiveFrom(lines, st.cursor) && st.out == [] + Split(Join(o))
    ensures Output(Scan(host, lines, st, b)) == Splice(Ok(o), RenderPassive(lines[st.cursor..], st.ctx, host.toStr))
  {
    FinishTail(host, lines, st, b);
    AppendedSplice(o, RenderPassive(lines[st.cursor..], st.ctx, host.toStr));
  }

  /** What the recursive `build` of a body returns once the body lines
      rendered to `r`: their text, and the context unchanged. */
  function BuiltFrom(r: Result<seq<string>, Error>, ctx: Context): (t: Result<Rendered, Error>)
    ensures t.Ok? <==> r.Ok?
  {
    var o :- r;
    Ok(Rendered(Join(o), ctx))
  }

  lemma {:induction false} BuiltOk(t: Result<Rendered, Error>, r: Result<seq<string>, Error>, ctx: Context, o: seq<string>)
    requires t == BuiltFrom(r, ctx) && r == Ok(o)
    ensures t == Ok(Rendered(Join(o), ctx))
  {
  }

  lemma {:induction false} BuiltErr(t: Result<Rendered, Error>, r: Result<seq<string>, Error>, ctx: Context, x: Error)
    requires t == BuiltFrom(r, ctx) && r == Err(x)
    ensures t == Err(x)
  {
  }

  /** The body gathered by a taken branch with a plain body ending at `j`
      builds as its lines render. */
  lemma {:induction false} BranchBodyBuilds(host: Host, lines: seq<string>, i: nat, j: nat, ctx: Context, b: nat)
    requires Bounded(ctx, b) && AllNoNewline(lines) && FirstBranchEnd(lines, i, j) && PlainBetween(lines, i, j)
    ensures Build(host, Join(Filter(lines[i + 1..j + 1], KeepInBranch)), ctx, b) ==
      BuiltFrom(RenderPassive(lines[i + 1..j], ctx, host.toStr), ctx)
  {
    PlainBody(lines, i, j, KeepInBranch);
    PlainBodyLines(lines, i, j);
    BuildPassiveLines(host, lines[i + 1..j], ctx, b);
  }

  /** The same for an `else` body ending at its `endif` `e`. */
  lemma {:induction false} ElseBodyBuilds(host: Host, lines: seq<string>, i: nat, e: nat, ctx: Context, b: nat)
    requires Bounded(ctx, b) && AllNoNewline(lines) && FirstEndif(lines, i, e) && PlainBetween(lines, i, e)
    ensures Build(host, Join(Filter(lines[i + 1..e + 1], KeepInElse)), ctx, b) ==
      BuiltFrom(RenderPassive(lines[i + 1..e], ctx, host.toStr), ctx)
  {
    PlainBody(lines, i, e, KeepInElse);
    PlainBodyLines(lines, i, e);
    BuildPassiveLines(host, lines[i + 1..e], ctx, b);
  }

  /** A taken `if`/`elif` whose body builds to the text of `o` resumes
      after the `endif` `e` with that text split into lines. */
  lemma {:induction false} TakenStepTo(host: Host, lines: seq<string>, st: State, cond: string, j: nat, e: nat, b: nat, o: seq<string>)
    requires Progress.Valid(|lines|, st, b) && st.cursor < |lines| && st.out == []
    requires DispatchesCond(lines[st.cursor], cond) && host.eval(cond, st.ctx) == Ok(true)
    requires FirstBranchEnd(lines, st.cursor, j) && FirstEndif(lines, j, e)
    requires Build(host, Join(Filter(lines[st.cursor + 1..j + 1], KeepInBranch)), st.ctx, b) == Ok(Rendered(Join(o), st.ctx))
    ensures Progress.Valid(|lines|, State(e + 1, st.frames, 0, st.ctx, [] + Split(Join(o))), b)
    ensures Scan(host, lines, st, b) == Scan(host, lines, State(e + 1, st.frames, 0, st.ctx, [] + Split(Join(o))), b)
  {
    TakenBranch(host, lines, st, cond, j, e, b, Rendered(Join(o), st.ctx));
  }

  /** A taken `if`/`elif` whose gathered body is empty or only comments
      still emits one line, the empty one: the recursive `build` of the
      empty template returns `""`, and splitting it gives `[""]`
      (src/jinja2.ts:96-130). The body may have been emptied by dropping
      nested branch markers. */
  lemma {:induction false} EmptyBodyLine(host: Host, lines: seq<string>, st: State, cond: string, j: nat, e: nat, b: nat)
    requires Progress.Valid(|lines|, st, b) && st.cursor < |lines| && AllNoNewline(lines)
    requires DispatchesCond(lines[st.cursor], cond) && host.eval(cond, st.ctx) == Ok(true)
    requires FirstBranchEnd(lines, st.cursor, j) && FirstEndif(lines, j, e)
    requires AllComments(Filter(lines[st.cursor + 1..j + 1], KeepInBranch))
    ensures Progress.Valid(|lines|, State(e + 1, st.frames, 0, st.ctx, st.out + [""]), b)
    ensures Scan(host, lines, st, b) == Scan(host, lines, State(e + 1, st.frames, 0, st.ctx, st.out + [""]), b)
  {
    var passed := lines[st.cursor + 1..j + 1];
    var body := Filter(passed, KeepInBranch);
    forall k | 0 <= k < |passed|
      ensures NoNewline(passed[k])
    {
      assert passed[k] == lines[st.cursor + 1 + k];
    }
    FilterNoNewline(passed, KeepInBranch);
    CommentsVanish(body, st.ctx, host.toStr);
    assert AllPassive(body);
    BuildPassiveLines(host, body, st.ctx, b);
    TakenBranch(host, lines, st, cond, j, e, b, Rendered(Join([]), st.ctx));
    assert Split(Join([])) == [""];
  }

  /** Resuming after `e` with a body's text split into lines, passive lines
      after: the spliced text. */
  lemma {:induction false} ResumeAfter(host: Host, lines: seq<string>, st: State, e: nat, b: nat, o: seq<string>)
    requires Progress.Valid(|lines|, st, b) && e < |lines| && PassiveFrom(lines, e + 1)
    requires Progress.Valid(|lines|, State(e + 1, st.frames, 0, st.ctx, [] + Split(Join(o))), b)
    requires Scan(host, lines, st, b) == Scan(host, lines, State(e + 1, st.frames, 0, st.ctx, [] + Split(Join(o))), b)
    ensures Output(Scan(host, lines, st, b)) == Splice(Ok(o), RenderPassive(lines[e + 1..], st.ctx, host.toStr))
  {
    ResumeRender(host, lines, State(e + 1, st.frames, 0, st.ctx, [] + Split(Join(o))), b, o);
  }

  lemma {:induction false} TakenRenderOk(host: Host, lines: seq<string>, st: State, cond: string, j: nat, e: nat, b: nat, o: seq<string>)
    requires Progress.Valid(|lines|, st, b) && st.cursor < |lines| && st.out == [] && AllNoNewline(lines)
    requires DispatchesCond(lines[st.cursor], cond) && host.eval(cond, st.ctx) == Ok(true)
    requires FirstBranchEnd(lines, st.cursor, j) && PlainBetween(lines, st.cursor, j)
    requires FirstEndif(lines, j, e) && PassiveFrom(lines, e + 1)
    requires RenderPassive(lines[st.cursor + 1..j], st.ctx, host.toStr) == Ok(o)
    ensures Output(Scan(host, lines, st, b)) == Splice(Ok(o), RenderPassive(lines[e + 1..], st.ctx, host.toStr))
  {
    BranchBodyBuilds(host, lines, st.cursor, j, st.ctx, b);
    BuiltOk(Build(host, Join(Filter(lines[st.cursor + 1..j + 1], KeepInBranch)), st.ctx, b), RenderPassive(lines[st.cursor + 1..j], st.ctx, host.toStr), st.ctx, o);
    TakenStepTo(host, lines, st, cond, j, e, b, o);
    ResumeAfter(host, lines, st, e, b, o);
  }

  /** The same when the body fails. */
  lemma {:induction false} TakenRenderFails(host: Host, lines: seq<string>, st: State, cond: string, j: nat, b: nat, x: Error)
    requires Progress.Valid(|lines|, st, b) && st.cursor < |lines| && AllNoNewline(lines)
    requires DispatchesCond(lines[st.cursor], cond) && host.eval(cond, st.ctx) == Ok(true)
    requires FirstBranchEnd(lines, st.cursor, j) && PlainBetween(lines, st.cursor, j)
    requires RenderPassive(lines[st.cursor + 1..j], st.ctx, host.toStr) == Err(x)
    ensures Output(Scan(host, lines, st, b)) == Err(x)
  {
    BranchBodyBuilds(host, lines, st.cursor, j, st.ctx, b);
    BuiltErr(Build(host, Join(Filter(lines[st.cursor + 1..j + 1], KeepInBranch)), st.ctx, b),
      RenderPassive(lines[st.cursor + 1..j], st.ctx, host.toStr), st.ctx, x);
    TakenBranchFails(host, lines, st, cond, j, b, x);
  }

  /** A taken `if`/`elif` with a plain body ending at `j`, resumed after the
      first `endif` `e` past `j`: the body's rendering, then that of the
      lines after `e`; the lines between `j` and `e` leave no trace. */
  lemma {:induction false} TakenRender(host: Host, lines: seq<string>, st: State, cond: string, j: nat, e: nat, b: nat)
    requires Progress.Valid(|lines|, st, b) && st.cursor < |lines| && st.out == [] && AllNoNewline(lines)
    requires DispatchesCond(lines[st.cursor], cond) && host.eval(cond, st.ctx) == Ok(true)
    requires FirstBranchEnd(lines, st.cursor, j) && PlainBetween(lines, st.cursor, j)
    requires FirstEndif(lines, j, e) && PassiveFrom(lines, e + 1)
    ensures Output(Scan(host, lines, st, b)) ==
      Splice(RenderPassive(lines[st.cursor + 1..j], st.ctx, host.toStr), RenderPassive(lines[e + 1..], st.ctx, host.toStr))
  {
    match RenderPassive(lines[st.cursor + 1..j], st.ctx, host.toStr)
    case Err(x) => TakenRenderFails(host, lines, st, cond, j, b, x);
    case Ok(o) => TakenRenderOk(host, lines, st, cond, j, e, b, o);
  }

  /** A scan that ended with a body's rendering split into lines and
      nothing after it stands for the body's text. */
  lemma {:induction false} OutputOfBody(st: State, o: seq<string>)
    requires st.out == [] + Split(Join(o))
    ensures Output(Ok(st)) == Splice(Ok(o), Ok([]))
  {
    JoinOfSplit(Join(o));
    assert [] + Split(Join(o)) == Split(Join(o));
    assert [Join(o)] + [] == [Join(o)];
  }

  /** A taken `if`/`elif` with a plain body ending at `j` and no `endif`
      after `j`: the output is the body's alone, the rest of the template is
      never looked at. */
  lemma {:induction false} TakenRenderToEnd(host: Host, lines: seq<string>, st: State, cond: string, j: nat, b: nat)
    requires Progress.Valid(|lines|, st, b) && st.cursor < |lines| && st.out == [] && AllNoNewline(lines)
    requires DispatchesCond(lines[st.cursor], cond) && host.eval(cond, st.ctx) == Ok(true)
    requires FirstBranchEnd(lines, st.cursor, j) && PlainBetween(lines, st.cursor, j) && NoEndifAfter(lines, j)
    ensures Output(Scan(host, lines, st, b)) ==
      Splice(RenderPassive(lines[st.cursor + 1..j], st.ctx, host.toStr), Ok([]))
  {
    BranchBodyBuilds(host, lines, st.cursor, j, st.ctx, b);
    match RenderPassive(lines[st.cursor + 1..j], st.ctx, host.toStr)
    case Err(x) => TakenBranchFails(host, lines, st, cond, j, b, x);
    case Ok(o) =>
      var sub := Rendered(Join(o), st.ctx);
      TakenBranchToEnd(host, lines, st, cond, j, b, sub);
      OutputOfBody(State(|lines|, st.frames, SkipToEndif(lines, j, 0).depth, sub.ctx, st.out + Split(sub.text)), o);
  }

  /** A false `if` followed by a true `elif` with a plain body ending at
      `k`: only the `elif` body is rendered, then the lines after the first
      `endif` `e` past `k`; the `if` body and the rest of the chain leave
      no trace (test/jinja2.test.ts:132-153). */
  lemma {:induction false} FalseThenElif(host: Host, lines: seq<string>, st: State, cond: string, cond': string, j: nat, k: nat, e: nat, b: nat)
    requires Progress.Valid(|lines|, st, b) && st.cursor < |lines| && st.out == [] && AllNoNewline(lines)
    requires DispatchesCond(lines[st.cursor], cond) && host.eval(cond, st.ctx) == Ok(false)
    requires FirstBranchEnd(lines, st.cursor, j) && IsElif(lines[j])
    requires DispatchesCond(lines[j], cond') && host.eval(cond', st.ctx) == Ok(true)
    requires FirstBranchEnd(lines, j, k) && PlainBetween(lines, j, k)
    requires FirstEndif(lines, k, e) && PassiveFrom(lines, e + 1)
    ensures Output(Scan(host, lines, st, b)) ==
      Splice(RenderPassive(lines[j + 1..k], st.ctx, host.toStr), RenderPassive(lines[e + 1..], st.ctx, host.toStr))
  {
    FalseBranch(host, lines, st, cond, j, j, b);
    ResumedAtElif(host, lines, st, cond', j, k, e, b);
  }

  /** The scan moved on to a true `elif` at `j` renders it as a taken branch. */
  lemma {:induction false} ResumedAtElif(host: Host, lines: seq<string>, st: State, cond': string, j: nat, k: nat, e: nat, b: nat)
    requires Progress.Valid(|lines|, st.(cursor := j), b) && j < |lines| && st.out == [] && AllNoNewline(lines)
    requires DispatchesCond(lines[j], cond') && host.eval(cond', st.ctx) == Ok(true)
    requires FirstBranchEnd(lines, j, k) && PlainBetween(lines, j, k)
    requires FirstEndif(lines, k, e) && PassiveFrom(lines, e + 1)
    ensures Output(Scan(host, lines, st.(cursor := j), b)) ==
      Splice(RenderPassive(lines[j + 1..k], st.ctx, host.toStr), RenderPassive(lines[e + 1..], st.ctx, host.toStr))
  {
    var st' := st.(cursor := j);
    assert st'.cursor == j && st'.ctx == st.ctx && st'.out == [];
    assert lines[st'.cursor + 1..k] == lines[j + 1..k];
    TakenRender(host, lines, st', cond', k, e, b);
  }

  /** An `else` whose body builds to the text of `o` resumes after its
      `endif` `e` with that text split into lines. */
  lemma {:induction false} ElseStepTo(host: Host, lines: seq<string>, st: State, e: nat, b: nat, o: seq<string>)
    requires Progress.Valid(|lines|, st, b) && st.cursor < |lines| && st.out == []
    requires DispatchesElse(lines[st.cursor]) && FirstEndif(lines, st.cursor, e)
    requires Build(host, Join(Filter(lines[st.cursor + 1..e + 1], KeepInElse)), st.ctx, b) == Ok(Rendered(Join(o), st.ctx))
    ensures Progress.Valid(|lines|, State(e + 1, st.frames, 0, st.ctx, [] + Split(Join(o))), b)
    ensures Scan(host, lines, st, b) == Scan(host, lines, State(e + 1, st.frames, 0, st.ctx, [] + Split(Join(o))), b)
  {
    ElseTaken(host, lines, st, e, b, Rendered(Join(o), st.ctx));
  }

  lemma {:induction false} ElseRenderOk(host: Host, lines: seq<string>, st: State, e: nat, b: nat, o: seq<string>)
    requires Progress.Valid(|lines|, st, b) && st.cursor < |lines| && st.out == [] && AllNoNewline(lines)
    requires DispatchesElse(lines[st.cursor]) && FirstEndif(lines, st.cursor, e)
    requires PlainBetween(lines, st.cursor, e) && PassiveFrom(lines, e + 1)
    requires RenderPassive(lines[st.cursor + 1..e], st.ctx, host.toStr) == Ok(o)
    ensures Output(Scan(host, lines, st, b)) == Splice(Ok(o), RenderPassive(lines[e + 1..], st.ctx, host.toStr))
  {
    ElseBodyBuilds(host, lines, st.cursor, e, st.ctx, b);
    BuiltOk(Build(host, Join(Filter(lines[st.cursor + 1..e + 1], KeepInElse)), st.ctx, b), RenderPassive(lines[st.cursor + 1..e], st.ctx, host.toStr), st.ctx, o);
    ElseStepTo(host, lines, st, e, b, o);
    ResumeAfter(host, lines, st, e, b, o);
  }

  lemma {:induction false} ElseRenderFails(host: Host, lines: seq<string>, st: State, e: nat, b: nat, x: Error)
    requires Progress.Valid(|lines|, st, b) && st.cursor < |lines| && AllNoNewline(lines)
    requires DispatchesElse(lines[st.cursor]) && FirstEndif(lines, st.cursor, e) && PlainBetween(lines, st.cursor, e)
    requires RenderPassive(lines[st.cursor + 1..e], st.ctx, host.toStr) == Err(x)
    ensures Output(Scan(host, lines, st, b)) == Err(x)
  {
    ElseBodyBuilds(host, lines, st.cursor, e, st.ctx, b);
    BuiltErr(Build(host, Join(Filter(lines[st.cursor + 1..e + 1], KeepInElse)), st.ctx, b),
      RenderPassive(lines[st.cursor + 1..e], st.ctx, host.toStr), st.ctx, x);
    ElseTakenFails(host, lines, st, e, b, x);
  }

  /** An `else` with a plain body up to its `endif` `e`: the body's
      rendering, then that of the lines after `e`. */
  lemma {:induction false} ElseRender(host: Host, lines: seq<string>, st: State, e: nat, b: nat)
    requires Progress.Valid(|lines|, st, b) && st.cursor < |lines| && st.out == [] && AllNoNewline(lines)
    requires DispatchesElse(lines[st.cursor]) && FirstEndif(lines, st.cursor, e)
    requires PlainBetween(lines, st.cursor, e) && PassiveFrom(lines, e + 1)
    ensures Output(Scan(host, lines, st, b)) ==
      Splice(RenderPassive(lines[st.cursor + 1..e], st.ctx, host.toStr), RenderPassive(lines[e + 1..], st.ctx, host.toStr))
  {
    match RenderPassive(lines[st.cursor + 1..e], st.ctx, host.toStr)
    case Err(x) => ElseRenderFails(host, lines, st, e, b, x);
    case Ok(o) => ElseRenderOk(host, lines, st, e, b, o);
  }

  /** An `if`/`else` template whose condition holds: the `if` body up to
      the `else` (or any depth-0 `elif`/`endif`) is rendered, the lines up
      to the following `endif` are skipped, and the lines after it follow
      (test/jinja2.test.ts:114-129). */
  lemma {:induction false} IfElseTaken(host: Host, lines: seq<string>, st: State, cond: string, j: nat, e: nat, b: nat)
    requires Progress.Valid(|lines|, st, b) && st.cursor < |lines| && st.out == [] && AllNoNewline(lines)
    requires DispatchesCond(lines[st.cursor], cond) && host.eval(cond, st.ctx) == Ok(true)
    requires st.cursor < j < e < |lines| && EndsBranch(lines[j], 0) && PlainBetween(lines, st.cursor, j)
    requires EndsAtEndif(lines[e], 0) && (forall k :: j < k < e ==> KeepInElse(lines[k])) && PassiveFrom(lines, e + 1)
    ensures Output(Scan(host, lines, st, b)) ==
      Splice(RenderPassive(lines[st.cursor + 1..j], st.ctx, host.toStr), RenderPassive(lines[e + 1..], st.ctx, host.toStr))
  {
    PlainBranchEnd(lines, st.cursor, j);
    PlainEndif(lines, j, e);
    TakenRender(host, lines, st, cond, j, e, b);
  }

  /** An `if`/`else` template whose condition fails: the `if` body is
      skipped and the `else` body up to its `endif` is rendered, then the
      lines after it (test/jinja2.test.ts:114-129). */
  lemma {:induction false} IfElseSkipped(host: Host, lines: seq<string>, st: State, cond: string, j: nat, e: nat, b: nat)
    requires Progress.Valid(|lines|, st, b) && st.cursor < |lines| && st.out == [] && AllNoNewline(lines)
    requires DispatchesCond(lines[st.cursor], cond) && host.eval(cond, st.ctx) == Ok(false)
    requires st.cursor < j < e < |lines| && DispatchesElse(lines[j])
    requires forall k :: st.cursor < k < j ==> KeepInBranch(lines[k])
    requires EndsAtEndif(lines[e], 0) && PlainBetween(lines, j, e) && PassiveFrom(lines, e + 1)
    ensures Output(Scan(host, lines, st, b)) ==
      Splice(RenderPassive(lines[j + 1..e], st.ctx, host.toStr), RenderPassive(lines[e + 1..], st.ctx, host.toStr))
  {
    PlainBranchEnd(lines, st.cursor, j);
    PlainEndif(lines, j, e);
    FalseBranch(host, lines, st, cond, j, j, b);
    ResumedAtElse(host, lines, st, j, e, b);
  }

  /** The scan moved on to an `else` at `j` renders it as an `else` body. */
  lemma {:induction false} ResumedAtElse(host: Host, lines: seq<string>, st: State, j: nat, e: nat, b: nat)
    requires Progress.Valid(|lines|, st.(cursor := j), b) && j < |lines| && st.out == [] && AllNoNewline(lines)
    requires DispatchesElse(lines[j]) && FirstEndif(lines, j, e)
    requires PlainBetween(lines, j, e) && PassiveFrom(lines, e + 1)
    ensures Output(Scan(host, lines, st.(cursor := j), b)) ==
      Splice(RenderPassive(lines[j + 1..e], st.ctx, host.toStr), RenderPassive(lines[e + 1..], st.ctx, host.toStr))
  {
    var st' := st.(cursor := j);
    assert st'.cursor == j && st'.ctx == st.ctx && st'.out == [];
    assert lines[st'.cursor + 1..e] == lines[j + 1..e];
    ElseRender(host, lines, st', e, b);
  }

  /** A closed `if` whose condition holds, with no `if` or `endif` after
      its closing line: the skip after the body looks for a further `endif`
      and runs to the end, so only the body is rendered and every later
      line is dropped (src/jinja2.ts:132-153). */
  lemma {:induction false} IfSwallowsRest(host: Host, lines: seq<string>, st: State, cond: string, j: nat, b: nat)
    requires Progress.Valid(|lines|, st, b) && st.cursor < |lines| && st.out == [] && AllNoNewline(lines)
    requires DispatchesCond(lines[st.cursor], cond) && host.eval(cond, st.ctx) == Ok(true)
    requires st.cursor < j < |lines| && EndsBranch(lines[j], 0) && PlainBetween(lines, st.cursor, j)
    requires forall k :: j < k < |lines| ==> KeepInElse(lines[k])
    ensures Output(Scan(host, lines, st, b)) == Splice(RenderPassive(lines[st.cursor + 1..j], st.ctx, host.toStr), Ok([]))
  {
    PlainBranchEnd(lines, st.cursor, j);
    PlainNoEndif(lines, j);
    TakenRenderToEnd(host, lines, st, cond, j, b);
  }
}
