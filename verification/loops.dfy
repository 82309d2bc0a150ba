/** `for` loops: what a `for` and an `endfor` line do to the scan
    (src/jinja2.ts:365-422), and how a loop whose body is plain content
    renders that body once per list element, in order. */
module Loops {
  import opened Wrappers
  import opened Lines
  import opened Patterns
  import opened Values
  import opened ScanState
  import opened Engine
  import opened Content
  import Progress

  /** The main loop treats `line` as a `for` with header `h`. */
  predicate DispatchesFor(line: string, h: ForHead) {
    !IsComment(line) && !IsIf(line) && !IsElif(line) && !IsElse(line) && ForHeader(line) == Some(h)
  }

  /** The main loop treats `line` as an `endfor`. */
  predicate DispatchesEndfor(line: string) {
    !IsComment(line) && !IsIf(line) && !IsElif(line) && !IsElse(line) && !IsFor(line) && IsEndfor(line)
  }

  /** The innermost open loop. */
  function Top(st: State): Frame
    requires |st.frames| > 0
  {
    st.frames[|st.frames| - 1]
  }

  lemma {:induction false} ScanAtFor(host: Host, lines: seq<string>, st: State, h: ForHead, b: nat)
    requires Progress.Valid(|lines|, st, b) && st.cursor < |lines| && DispatchesFor(lines[st.cursor], h)
    ensures Scan(host, lines, st, b) == OpenLoop(host, lines, st, h, b)
  {
  }

  lemma {:induction false} ScanAtEndfor(host: Host, lines: seq<string>, st: State, b: nat)
    requires Progress.Valid(|lines|, st, b) && st.cursor < |lines| && DispatchesEndfor(lines[st.cursor])
    ensures Scan(host, lines, st, b) == CloseLoop(host, lines, st, b)
  {
  }

  /** A `for` over an unbound name fails (src/jinja2.ts:379-382). */
  lemma {:induction false} UndefinedList(host: Host, lines: seq<string>, st: State, h: ForHead, b: nat)
    requires Progress.Valid(|lines|, st, b) && st.cursor < |lines| && DispatchesFor(lines[st.cursor], h)
    requires h.list !in st.ctx
    ensures Scan(host, lines, st, b) == Err(UndefinedLoopList(h.list))
  {
    ScanAtFor(host, lines, st, h, b);
  }

  /** A `for` over a bound value that is no list fails (src/jinja2.ts:383-386). */
  lemma {:induction false} NotAList(host: Host, lines: seq<string>, st: State, h: ForHead, b: nat)
    requires Progress.Valid(|lines|, st, b) && st.cursor < |lines| && DispatchesFor(lines[st.cursor], h)
    requires h.list in st.ctx && !st.ctx[h.list].List?
    ensures Scan(host, lines, st, b) == Err(NotArray(h.list))
  {
    ScanAtFor(host, lines, st, h, b);
  }

  /** A `for` over a list pushes a frame at index 0 for its own line and
      goes on after it, the item bound to the first element or, for an
      empty list, unbound (src/jinja2.ts:387-395). */
  lemma {:induction false} ForOpens(host: Host, lines: seq<string>, st: State, h: ForHead, items: seq<Value>, b: nat)
    requires Progress.Valid(|lines|, st, b) && st.cursor < |lines| && DispatchesFor(lines[st.cursor], h)
    requires h.list in st.ctx && st.ctx[h.list] == List(items)
    ensures Progress.Valid(|lines|, Opened(st, h, items), b)
    ensures Scan(host, lines, st, b) == Scan(host, lines, Opened(st, h, items), b)
    ensures Opened(st, h, items).ctx == if |items| > 0 then st.ctx[h.item := items[0]] else st.ctx - {h.item}
  {
    ScanAtFor(host, lines, st, h, b);
    if |items| > 0 {
      BindElement(st.ctx, h.list, items, 0, h.item, b);
    }
  }

  /** A `for` over a list that no `endfor` closes renders the rest of the
      input once, with the item bound to the first element or, for an empty
      list, unbound, and the render ends without an error of its own, the
      loop still open (src/jinja2.ts:387-395). */
  lemma {:induction false} LoopRunsOut(host: Host, lines: seq<string>, st: State, h: ForHead, items: seq<Value>, b: nat)
    requires Progress.Valid(|lines|, st, b) && st.cursor < |lines| && DispatchesFor(lines[st.cursor], h)
    requires h.list in st.ctx && st.ctx[h.list] == List(items)
    requires forall k :: st.cursor < k < |lines| ==> IsPassive(lines[k])
    ensures var ctx := if |items| > 0 then st.ctx[h.item := items[0]] else st.ctx - {h.item};
      Scan(host, lines, st, b) ==
        match RenderPassive(lines[st.cursor + 1..], ctx, host.toStr)
        case Ok(o) => Ok(State(|lines|, st.frames + [Frame(h.list, h.item, st.cursor, 0)], 0, ctx, st.out + o))
        case Err(x) => Err(x)
  {
    ForOpens(host, lines, st, h, items, b);
    var op := Opened(st, h, items);
    ScanPassive(host, lines, op, |lines|, b);
    assert lines[op.cursor..|lines|] == lines[st.cursor + 1..];
  }

  /** An `endfor` with no open loop fails with its own 1-based line number
      (src/jinja2.ts:402-404). */
  lemma {:induction false} EndforUnmatched(host: Host, lines: seq<string>, st: State, b: nat)
    requires Progress.Valid(|lines|, st, b) && st.cursor < |lines| && DispatchesEndfor(lines[st.cursor])
    requires st.frames == []
    ensures Scan(host, lines, st, b) == Err(UnmatchedEndfor(st.cursor + 1))
  {
    ScanAtEndfor(host, lines, st, b);
  }

  /** An `endfor` whose loop's list variable has been deleted fails where
      JavaScript reads `length` of `undefined` (src/jinja2.ts:410). */
  lemma {:induction false} EndforListLost(host: Host, lines: seq<string>, st: State, b: nat)
    requires Progress.Valid(|lines|, st, b) && st.cursor < |lines| && DispatchesEndfor(lines[st.cursor])
    requires |st.frames| > 0 && Top(st).listVar !in st.ctx
    ensures Scan(host, lines, st, b) == Err(LoopListLost(Top(st).listVar))
  {
    ScanAtEndfor(host, lines, st, b);
  }

  /** An `endfor` acts on the innermost loop only: with a further element
      it advances that loop's index, binds the item to that element and
      goes on at the line after the loop's `for` line, leaving the outer
      loops as they are (src/jinja2.ts:405-417). */
  lemma {:induction false} EndforRewinds(host: Host, lines: seq<string>, st: State, b: nat)
    requires Progress.Valid(|lines|, st, b) && st.cursor < |lines| && DispatchesEndfor(lines[st.cursor])
    requires |st.frames| > 0 && Top(st).listVar in st.ctx && HasNext(st.ctx[Top(st).listVar], Top(st).index)
    ensures Progress.Valid(|lines|, Rewound(st), b)
    ensures Scan(host, lines, st, b) == Scan(host, lines, Rewound(st), b)
    ensures var m := |st.frames|;
      && Rewound(st).cursor == Top(st).start + 1
      && Rewound(st).frames == st.frames[..m - 1] + [Top(st).(index := Top(st).index + 1)]
      && Rewound(st).ctx == st.ctx[Top(st).itemVar := Element(st.ctx[Top(st).listVar], Top(st).index + 1)]
  {
    ScanAtEndfor(host, lines, st, b);
  }

  /** Without a further element the item variable is deleted, whether or
      not it was bound before the loop, exactly the innermost frame is
      popped, and the scan goes on after the `endfor` (src/jinja2.ts:418-421). */
  lemma {:induction false} EndforExits(host: Host, lines: seq<string>, st: State, b: nat)
    requires Progress.Valid(|lines|, st, b) && st.cursor < |lines| && DispatchesEndfor(lines[st.cursor])
    requires |st.frames| > 0 && Top(st).listVar in st.ctx && !HasNext(st.ctx[Top(st).listVar], Top(st).index)
    ensures Progress.Valid(|lines|, Exited(st), b)
    ensures Scan(host, lines, st, b) == Scan(host, lines, Exited(st), b)
    ensures Exited(st).ctx == st.ctx - {Top(st).itemVar} && Top(st).itemVar !in Exited(st).ctx
  {
    ScanAtEndfor(host, lines, st, b);
  }

  /** The scan resumed at `st` once a rendering `r` is appended to its
      output, or the failure of `r`. */
  function Continue(host: Host, lines: seq<string>, st: State, r: Result<seq<string>, Error>, ghost b: nat): Result<State, Error>
    requires Progress.Valid(|lines|, st, b)
  {
    match r
    case Err(x) => Err(x)
    case Ok(o) => Scan(host, lines, st.(out := st.out + o), b)
  }

  /** `o` in front of the lines of `r`. */
  function Prefixed(o: seq<string>, r: Result<seq<string>, Error>): Result<seq<string>, Error> {
    match r
    case Err(x) => Err(x)
    case Ok(rest) => Ok(o + rest)
  }

  lemma {:induction false} ContinueShift(host: Host, lines: seq<string>, st: State, o: seq<string>, r: Result<seq<string>, Error>, b: nat)
    requires Progress.Valid(|lines|, st, b)
    ensures Continue(host, lines, st, Prefixed(o, r), b) == Continue(host, lines, st.(out := st.out + o), r, b)
  {
    match r
    case Err(x) =>
    case Ok(rest) =>
      assert st.(out := st.out + (o + rest)) == st.(out := st.out + o).(out := st.out + o + rest);
  }

  /** The body rendered once per element of `items` from index `k` on,
      with the item bound to that element; the first failure wins. */
  function Iterations(body: seq<string>, ctx: Context, item: string, items: seq<Value>, k: nat, toStr: Value -> string): Result<seq<string>, Error>
    decreases |items| - k
  {
    if k >= |items| then Ok([])
    else
      var o :- RenderPassive(body, ctx[item := items[k]], toStr);
      var rest :- Iterations(body, ctx, item, items, k + 1, toStr);
      Ok(o + rest)
  }

  lemma {:induction false} IterationsStep(body: seq<string>, ctx: Context, item: string, items: seq<Value>, k: nat, toStr: Value -> string, o: seq<string>)
    requires k < |items| && RenderPassive(body, ctx[item := items[k]], toStr) == Ok(o)
    ensures Iterations(body, ctx, item, items, k, toStr) == Prefixed(o, Iterations(body, ctx, item, items, k + 1, toStr))
  {
  }

  /** What a loop over `items` renders: the body once per element, or once
      with the item unbound when the list is empty. */
  function Passes(body: seq<string>, ctx: Context, item: string, items: seq<Value>, toStr: Value -> string): Result<seq<string>, Error> {
    if |items| == 0 then RenderPassive(body, ctx - {item}, toStr)
    else Iterations(body, ctx, item, items, 0, toStr)
  }

  /** `lines[s]` is a `for` with header `h` and `lines[t]` an `endfor`, with
      only passive lines between them. */
  predicate PlainLoop(lines: seq<string>, s: nat, t: nat, h: ForHead) {
    && s < t < |lines|
    && DispatchesFor(lines[s], h) && DispatchesEndfor(lines[t])
    && forall k :: s < k < t ==> IsPassive(lines[k])
  }

  /** The scan at the start of the body of the loop opened at `lines[s]`
      inside the loops `outer`, at index `k`, over a context that is `ctx`
      with the item bound to element `k`. */
  function AtIteration(s: nat, outer: seq<Frame>, h: ForHead, ctx: Context, items: seq<Value>, k: nat, out: seq<string>): State
    requires k < |items|
  {
    State(s + 1, outer + [Frame(h.list, h.item, s, k)], 0, ctx[h.item := items[k]], out)
  }

  /** The scan after the loop's `endfor` `lines[t]`, the item deleted. */
  function AfterLoop(t: nat, outer: seq<Frame>, h: ForHead, ctx: Context, out: seq<string>): State {
    State(t + 1, outer, 0, ctx - {h.item}, out)
  }

  lemma {:induction false} AfterLoopValid(n: nat, s: nat, t: nat, outer: seq<Frame>, h: ForHead, ctx: Context, items: seq<Value>, k: nat, out: seq<string>, b: nat)
    requires k < |items| && s < t < n && Progress.Valid(n, AtIteration(s, outer, h, ctx, items, k, out), b)
    ensures Progress.Valid(n, AfterLoop(t, outer, h, ctx, out), b)
  {
    var st := AtIteration(s, outer, h, ctx, items, k, out);
    forall j | 0 <= j < |outer|
      ensures outer[j].start < t + 1 && outer[j].index <= b
    {
      assert outer[j] == st.frames[j];
    }
    forall i, j | 0 <= i < j < |outer|
      ensures outer[i].start < outer[j].start
    {
      assert outer[i] == st.frames[i] && outer[j] == st.frames[j];
    }
    forall x | x in ctx - {h.item}
      ensures Size((ctx - {h.item})[x]) <= b
    {
      assert st.ctx[x] == ctx[x];
    }
  }

  /** The `endfor` after iteration `k`, when there is a further element:
      back to the start of the body at index `k + 1`. */
  lemma {:induction false} RewindStep(host: Host, lines: seq<string>, s: nat, t: nat, h: ForHead, outer: seq<Frame>, ctx: Context, items: seq<Value>, k: nat, out: seq<string>, o: seq<string>, b: nat)
    requires PlainLoop(lines, s, t, h) && h.item != h.list && h.list in ctx && ctx[h.list] == List(items)
    requires k + 1 < |items| && Progress.Valid(|lines|, AtIteration(s, outer, h, ctx, items, k, out), b)
    ensures Progress.Valid(|lines|, AtIteration(s, outer, h, ctx, items, k, out).(cursor := t, out := out + o), b)
    ensures Progress.Valid(|lines|, AtIteration(s, outer, h, ctx, items, k + 1, out + o), b)
    ensures Scan(host, lines, AtIteration(s, outer, h, ctx, items, k, out).(cursor := t, out := out + o), b) ==
            Scan(host, lines, AtIteration(s, outer, h, ctx, items, k + 1, out + o), b)
  {
    var st := AtIteration(s, outer, h, ctx, items, k, out).(cursor := t, out := out + o);
    assert Top(st) == Frame(h.list, h.item, s, k);
    assert st.ctx[h.list] == List(items);
    EndforRewinds(host, lines, st, b);
    assert st.frames[..|st.frames| - 1] == outer;
    assert st.ctx[h.item := items[k + 1]] == ctx[h.item := items[k + 1]];
    assert Rewound(st) == AtIteration(s, outer, h, ctx, items, k + 1, out + o);
  }

  /** The `endfor` after the last iteration: out of the loop. */
  lemma {:induction false} ExitStep(host: Host, lines: seq<string>, s: nat, t: nat, h: ForHead, outer: seq<Frame>, ctx: Context, items: seq<Value>, k: nat, out: seq<string>, o: seq<string>, b: nat)
    requires PlainLoop(lines, s, t, h) && h.item != h.list && h.list in ctx && ctx[h.list] == List(items)
    requires k + 1 == |items| && Progress.Valid(|lines|, AtIteration(s, outer, h, ctx, items, k, out), b)
    ensures Progress.Valid(|lines|, AtIteration(s, outer, h, ctx, items, k, out).(cursor := t, out := out + o), b)
    ensures Progress.Valid(|lines|, AfterLoop(t, outer, h, ctx, out + o), b)
    ensures Scan(host, lines, AtIteration(s, outer, h, ctx, items, k, out).(cursor := t, out := out + o), b) ==
            Scan(host, lines, AfterLoop(t, outer, h, ctx, out + o), b)
  {
    var st := AtIteration(s, outer, h, ctx, items, k, out).(cursor := t, out := out + o);
    assert Top(st) == Frame(h.list, h.item, s, k);
    assert st.ctx[h.list] == List(items);
    EndforExits(host, lines, st, b);
    assert st.frames[..|st.frames| - 1] == outer;
    assert st.ctx - {h.item} == ctx - {h.item};
    assert Exited(st) == AfterLoop(t, outer, h, ctx, out + o);
  }

  /** Iteration `k` of a loop with a plain body and every later one: the
      body rendered once per remaining element, then the scan after the
      `endfor` with the item deleted (src/jinja2.ts:405-421). */
  lemma {:induction false} LoopFrom(host: Host, lines: seq<string>, s: nat, t: nat, h: ForHead, outer: seq<Frame>, ctx: Context, items: seq<Value>, k: nat, out: seq<string>, b: nat)
    requires PlainLoop(lines, s, t, h) && h.item != h.list && h.list in ctx && ctx[h.list] == List(items)
    requires k < |items| && Progress.Valid(|lines|, AtIteration(s, outer, h, ctx, items, k, out), b)
    ensures Progress.Valid(|lines|, AfterLoop(t, outer, h, ctx, out), b)
    ensures Scan(host, lines, AtIteration(s, outer, h, ctx, items, k, out), b) ==
            Continue(host, lines, AfterLoop(t, outer, h, ctx, out), Iterations(lines[s + 1..t], ctx, h.item, items, k, host.toStr), b)
    decreases |items| - k, 1
  {
    AfterLoopValid(|lines|, s, t, outer, h, ctx, items, k, out, b);
    var st := AtIteration(s, outer, h, ctx, items, k, out);
    ScanPassive(host, lines, st, t, b);
    match RenderPassive(lines[s + 1..t], st.ctx, host.toStr)
    case Err(x) =>
    case Ok(o) =>
      if k + 1 < |items| {
        LoopAgain(host, lines, s, t, h, outer, ctx, items, k, out, o, b);
      } else {
        LoopLast(host, lines, s, t, h, outer, ctx, items, k, out, o, b);
      }
  }

  /** Iteration `k` renders `o` and a further element follows. */
  lemma {:induction false} LoopAgain(host: Host, lines: seq<string>, s: nat, t: nat, h: ForHead, outer: seq<Frame>, ctx: Context, items: seq<Value>, k: nat, out: seq<string>, o: seq<string>, b: nat)
    requires PlainLoop(lines, s, t, h) && h.item != h.list && h.list in ctx && ctx[h.list] == List(items)
    requires k + 1 < |items| && Progress.Valid(|lines|, AtIteration(s, outer, h, ctx, items, k, out), b)
    requires RenderPassive(lines[s + 1..t], ctx[h.item := items[k]], host.toStr) == Ok(o)
    requires Progress.Valid(|lines|, AfterLoop(t, outer, h, ctx, out), b)
    ensures Progress.Valid(|lines|, AtIteration(s, outer, h, ctx, items, k, out).(cursor := t, out := out + o), b)
    ensures Scan(host, lines, AtIteration(s, outer, h, ctx, items, k, out).(cursor := t, out := out + o), b) ==
            Continue(host, lines, AfterLoop(t, outer, h, ctx, out), Iterations(lines[s + 1..t], ctx, h.item, items, k, host.toStr), b)
    decreases |items| - k, 0
  {
    var body := lines[s + 1..t];
    var fin := AfterLoop(t, outer, h, ctx, out);
    var rest := Iterations(body, ctx, h.item, items, k + 1, host.toStr);
    IterationsStep(body, ctx, h.item, items, k, host.toStr, o);
    ContinueShift(host, lines, fin, o, rest, b);
    assert fin.(out := fin.out + o) == AfterLoop(t, outer, h, ctx, out + o);
    RewindStep(host, lines, s, t, h, outer, ctx, items, k, out, o, b);
    LoopFrom(host, lines, s, t, h, outer, ctx, items, k + 1, out + o, b);
  }

  /** Iteration `k` renders `o` and is the last. */
  lemma {:induction false} LoopLast(host: Host, lines: seq<string>, s: nat, t: nat, h: ForHead, outer: seq<Frame>, ctx: Context, items: seq<Value>, k: nat, out: seq<string>, o: seq<string>, b: nat)
    requires PlainLoop(lines, s, t, h) && h.item != h.list && h.list in ctx && ctx[h.list] == List(items)
    requires k + 1 == |items| && Progress.Valid(|lines|, AtIteration(s, outer, h, ctx, items, k, out), b)
    requires RenderPassive(lines[s + 1..t], ctx[h.item := items[k]], host.toStr) == Ok(o)
    requires Progress.Valid(|lines|, AfterLoop(t, outer, h, ctx, out), b)
    ensures Progress.Valid(|lines|, AtIteration(s, outer, h, ctx, items, k, out).(cursor := t, out := out + o), b)
    ensures Scan(host, lines, AtIteration(s, outer, h, ctx, items, k, out).(cursor := t, out := out + o), b) ==
            Continue(host, lines, AfterLoop(t, outer, h, ctx, out), Iterations(lines[s + 1..t], ctx, h.item, items, k, host.toStr), b)
  {
    var body := lines[s + 1..t];
    var fin := AfterLoop(t, outer, h, ctx, out);
    var rest := Iterations(body, ctx, h.item, items, k + 1, host.toStr);
    IterationsStep(body, ctx, h.item, items, k, host.toStr, o);
    ContinueShift(host, lines, fin, o, rest, b);
    assert fin.(out := fin.out + o) == AfterLoop(t, outer, h, ctx, out + o);
    ExitStep(host, lines, s, t, h, outer, ctx, items, k, out, o, b);
    LastContinue(host, lines, AfterLoop(t, outer, h, ctx, out), o, b);
  }

  lemma {:induction false} LastContinue(host: Host, lines: seq<string>, st: State, o: seq<string>, b: nat)
    requires Progress.Valid(|lines|, st, b)
    ensures Continue(host, lines, st.(out := st.out + o), Ok([]), b) == Scan(host, lines, st.(out := st.out + o), b)
  {
    assert st.out + o + [] == st.out + o;
  }

  /** A `for` over an empty list walks its body once with the item unbound,
      and leaves the loop at the `endfor` (src/jinja2.ts:394, 410, 418-421). */
  lemma {:induction false} EmptyLoop(host: Host, lines: seq<string>, st: State, h: ForHead, t: nat, b: nat)
    requires Progress.Valid(|lines|, st, b) && PlainLoop(lines, st.cursor, t, h)
    requires h.item != h.list && h.list in st.ctx && st.ctx[h.list] == List([])
    ensures Progress.Valid(|lines|, Opened(st, h, []), b)
    ensures Progress.Valid(|lines|, AfterLoop(t, st.frames, h, st.ctx, st.out), b)
    ensures Scan(host, lines, Opened(st, h, []), b) ==
            Continue(host, lines, AfterLoop(t, st.frames, h, st.ctx, st.out), RenderPassive(lines[st.cursor + 1..t], st.ctx - {h.item}, host.toStr), b)
  {
    ForOpens(host, lines, st, h, [], b);
    var st1 := Opened(st, h, []);
    ScanPassive(host, lines, st1, t, b);
    var fin := AfterLoop(t, st.frames, h, st.ctx, st.out);
    match RenderPassive(lines[st.cursor + 1..t], st1.ctx, host.toStr)
    case Err(x) =>
      EmptyExitValid(host, lines, st, h, t, [], b);
    case Ok(o) =>
      EmptyExitValid(host, lines, st, h, t, o, b);
  }

  lemma {:induction false} EmptyExitValid(host: Host, lines: seq<string>, st: State, h: ForHead, t: nat, o: seq<string>, b: nat)
    requires Progress.Valid(|lines|, st, b) && PlainLoop(lines, st.cursor, t, h)
    requires h.item != h.list && h.list in st.ctx && st.ctx[h.list] == List([])
    requires Progress.Valid(|lines|, Opened(st, h, []), b)
    ensures Progress.Valid(|lines|, Opened(st, h, []).(cursor := t, out := st.out + o), b)
    ensures Progress.Valid(|lines|, AfterLoop(t, st.frames, h, st.ctx, st.out + o), b)
    ensures Progress.Valid(|lines|, AfterLoop(t, st.frames, h, st.ctx, st.out), b)
    ensures Scan(host, lines, Opened(st, h, []).(cursor := t, out := st.out + o), b) ==
            Scan(host, lines, AfterLoop(t, st.frames, h, st.ctx, st.out + o), b)
  {
    var st2 := Opened(st, h, []).(cursor := t, out := st.out + o);
    assert Top(st2) == Frame(h.list, h.item, st.cursor, 0);
    assert st2.ctx[h.list] == List([]);
    EndforExits(host, lines, st2, b);
    assert st2.frames[..|st2.frames| - 1] == st.frames;
    assert st2.ctx - {h.item} == st.ctx - {h.item};
    assert Exited(st2) == AfterLoop(t, st.frames, h, st.ctx, st.out + o);
  }

  /** A loop with a plain body, from its `for` line: the body rendered
      once per list element in order with the item bound to that element,
      or once with the item unbound for an empty list; then the scan goes
      on after the `endfor` with the item deleted and the outer loops as
      before (src/jinja2.ts:387-421). */
  lemma {:induction false} LoopRun(host: Host, lines: seq<string>, st: State, h: ForHead, t: nat, items: seq<Value>, b: nat)
    requires Progress.Valid(|lines|, st, b) && PlainLoop(lines, st.cursor, t, h)
    requires h.item != h.list && h.list in st.ctx && st.ctx[h.list] == List(items)
    ensures Progress.Valid(|lines|, AfterLoop(t, st.frames, h, st.ctx, st.out), b)
    ensures Scan(host, lines, st, b) ==
            Continue(host, lines, AfterLoop(t, st.frames, h, st.ctx, st.out), Passes(lines[st.cursor + 1..t], st.ctx, h.item, items, host.toStr), b)
  {
    ForOpens(host, lines, st, h, items, b);
    if |items| > 0 {
      assert Opened(st, h, items) == AtIteration(st.cursor, st.frames, h, st.ctx, items, 0, st.out);
      LoopFrom(host, lines, st.cursor, t, h, st.frames, st.ctx, items, 0, st.out, b);
    } else {
      assert items == [];
      EmptyLoop(host, lines, st, h, t, b);
    }
  }

  /** `ls` repeated `n` times. */
  function Repeat(ls: seq<string>, n: nat): (r: seq<string>)
    ensures |r| == n * |ls|
  {
    if n == 0 then [] else ls + Repeat(ls, n - 1)
  }

  /** Iterations of a body without markers repeat its content lines, one
      copy per remaining element. */
  lemma {:induction false} IterationsUnmarked(body: seq<string>, ctx: Context, item: string, items: seq<Value>, k: nat, toStr: Value -> string)
    requires AllPassive(body) && forall q :: 0 <= q < |body| ==> NoMarkers(body[q])
    requires k <= |items|
    ensures Iterations(body, ctx, item, items, k, toStr) == Ok(Repeat(Filter(body, NotComment), |items| - k))
    decreases |items| - k
  {
    if k < |items| {
      RenderUnmarked(body, ctx[item := items[k]], toStr);
      IterationsUnmarked(body, ctx, item, items, k + 1, toStr);
      assert |items| - k == (|items| - (k + 1)) + 1;
    }
  }

  /** Without markers, what a loop renders is its content lines repeated. */
  lemma {:induction false} PassesUnmarked(body: seq<string>, ctx: Context, item: string, items: seq<Value>, toStr: Value -> string)
    requires AllPassive(body) && forall q :: 0 <= q < |body| ==> NoMarkers(body[q])
    ensures Passes(body, ctx, item, items, toStr) == Ok(Repeat(Filter(body, NotComment), if |items| == 0 then 1 else |items|))
  {
    var f := Filter(body, NotComment);
    if |items| == 0 {
      RenderUnmarked(body, ctx - {item}, toStr);
      assert Repeat(f, 1) == f + Repeat(f, 0);
      assert f + [] == f;
    } else {
      IterationsUnmarked(body, ctx, item, items, 0, toStr);
    }
  }

  /** A loop whose body has no markers emits the body's content lines once
      per element, and once for an empty list. */
  lemma {:induction false} LoopRepeats(host: Host, lines: seq<string>, st: State, h: ForHead, t: nat, items: seq<Value>, b: nat)
    requires Progress.Valid(|lines|, st, b) && PlainLoop(lines, st.cursor, t, h)
    requires h.item != h.list && h.list in st.ctx && st.ctx[h.list] == List(items)
    requires forall q :: st.cursor < q < t ==> NoMarkers(lines[q])
    ensures Progress.Valid(|lines|, AfterLoop(t, st.frames, h, st.ctx, st.out), b)
    ensures Scan(host, lines, st, b) ==
            Scan(host, lines, AfterLoop(t, st.frames, h, st.ctx, st.out + Repeat(Filter(lines[st.cursor + 1..t], NotComment), if |items| == 0 then 1 else |items|)), b)
  {
    var body := lines[st.cursor + 1..t];
    forall q | 0 <= q < |body|
      ensures IsPassive(body[q]) && NoMarkers(body[q])
    {
      assert body[q] == lines[st.cursor + 1 + q];
    }
    var f := Filter(body, NotComment);
    var n := if |items| == 0 then 1 else |items|;
    PassesUnmarked(body, st.ctx, h.item, items, host.toStr);
    LoopRun(host, lines, st, h, t, items, b);
    var fin := AfterLoop(t, st.frames, h, st.ctx, st.out);
    assert fin.(out := fin.out + Repeat(f, n)) == AfterLoop(t, st.frames, h, st.ctx, st.out + Repeat(f, n));
  }
}
