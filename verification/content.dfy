/** Content and comment lines: what the main loop of `build` does with
    lines that are no directive (src/jinja2.ts:66-72, 424-433), and what
    this means for whole templates made of such lines. */
module Content {
  import opened Wrappers
  import opened Lines
  import opened Patterns
  import opened Values
  import opened Interpolation
  import opened ScanState
  import opened Engine
  import Progress

  /** A line the main loop interpolates: it matches no pattern the loop
      dispatches on. (A stray `endif` is such a line.) */
  predicate IsContent(line: string) {
    !IsComment(line) && !IsIf(line) && !IsElif(line) && !IsElse(line) && !IsFor(line) && !IsEndfor(line)
  }

  /** A line the main loop passes over without any directive effect. */
  predicate IsPassive(line: string) {
    IsComment(line) || IsContent(line)
  }

  predicate AllPassive(ls: seq<string>) {
    forall k :: 0 <= k < |ls| ==> IsPassive(ls[k])
  }

  predicate AllComments(ls: seq<string>) {
    forall k :: 0 <= k < |ls| ==> IsComment(ls[k])
  }

  predicate NotComment(line: string) {
    !IsComment(line)
  }

  /** A line with no `{{ name }}` marker anywhere. */
  predicate NoMarkers(line: string) {
    forall q :: 0 <= q < |line| ==> MarkerAt(line, q).None?
  }

  /** The rendering of passive lines on their own: comment lines are
      dropped, content lines interpolated, the first failure wins. */
  function RenderPassive(ls: seq<string>, ctx: Context, toStr: Value -> string): Result<seq<string>, Error>
  {
    if ls == [] then Ok([])
    else if IsComment(ls[0]) then RenderPassive(ls[1..], ctx, toStr)
    else
      var t :- Interpolate(ls[0], ctx, toStr);
      var rest :- RenderPassive(ls[1..], ctx, toStr);
      Ok([t] + rest)
  }

  /** Passing over passive lines appends their rendering and leaves the
      loops, the counter and the context alone. */
  lemma {:induction false} ScanPassive(host: Host, lines: seq<string>, st: State, e: nat, b: nat)
    requires Progress.Valid(|lines|, st, b) && st.cursor <= e <= |lines|
    requires forall k :: st.cursor <= k < e ==> IsPassive(lines[k])
    ensures Scan(host, lines, st, b) ==
      match RenderPassive(lines[st.cursor..e], st.ctx, host.toStr)
      case Ok(o) => Scan(host, lines, st.(cursor := e, out := st.out + o), b)
      case Err(x) => Err(x)
    decreases e - st.cursor
  {
    var c := st.cursor;
    if c == e {
      assert st.(cursor := e, out := st.out + []) == st;
    } else {
      var line := lines[c];
      assert lines[c..e][1..] == lines[c + 1..e];
      if IsComment(line) {
        var st' := st.(cursor := c + 1);
        ScanPassive(host, lines, st', e, b);
      } else {
        match Interpolate(line, st.ctx, host.toStr)
        case Err(x) =>
        case Ok(t) =>
          var st' := st.(cursor := c + 1, out := st.out + [t]);
          ScanPassive(host, lines, st', e, b);
          match RenderPassive(lines[c + 1..e], st.ctx, host.toStr)
          case Err(x) =>
          case Ok(o) =>
            assert st'.out + o == st.out + ([t] + o);
      }
    }
  }

  /** A template of passive lines renders as its lines do on their own, and
      leaves the context as it found it. */
  lemma {:induction false} BuildPassive(host: Host, template: string, ctx: Context, b: nat)
    requires Bounded(ctx, b) && AllPassive(Split(template))
    ensures Build(host, template, ctx, b) ==
      match RenderPassive(Split(template), ctx, host.toStr)
      case Ok(o) => Ok(Rendered(Join(o), ctx))
      case Err(x) => Err(x)
  {
    var lines := Split(template);
    var st := State(0, [], 0, ctx, []);
    ScanPassive(host, lines, st, |lines|, b);
    assert lines[0..|lines|] == lines;
    match RenderPassive(lines, ctx, host.toStr)
    case Err(x) =>
    case Ok(o) =>
      var fin := st.(cursor := |lines|, out := [] + o);
      assert Scan(host, lines, fin, b) == Ok(fin);
      assert [] + o == o;
  }

  /** The same for a run of passive lines joined into a template, which is
      how a branch body reaches the recursive `build`; an empty run is the
      empty template, one empty content line. */
  lemma {:induction false} BuildPassiveLines(host: Host, ls: seq<string>, ctx: Context, b: nat)
    requires Bounded(ctx, b) && AllPassive(ls) && AllNoNewline(ls)
    ensures Build(host, Join(ls), ctx, b) ==
      match RenderPassive(ls, ctx, host.toStr)
      case Ok(o) => Ok(Rendered(Join(o), ctx))
      case Err(x) => Err(x)
  {
    if |ls| == 0 {
      NoBraceLine("");
      assert Split("") == [""];
      BuildPassive(host, "", ctx, b);
      var one: seq<string> := [""];
      assert one[1..] == [];
      NoMarkersUnchanged("", ctx, host.toStr);
    } else {
      SplitOfJoin(ls);
      BuildPassive(host, Join(ls), ctx, b);
    }
  }

  /** Where a matcher needs `{` in front. */
  lemma {:induction false} BraceAt(line: string, q: nat, lit: string)
    requires HasAt(line, q, lit) && |lit| > 0 && lit[0] == '{'
    ensures q < |line| && line[q] == '{'
  {
    assert line[q..q + |lit|][0] == line[q];
  }

  /** A line without `{` is a content line without markers. */
  lemma {:induction false} NoBraceLine(line: string)
    requires '{' !in line
    ensures IsContent(line) && NoMarkers(line) && !IsEndif(line)
  {
    forall q | 0 <= q < |line|
      ensures KeywordArgAt(line, q, "if").None? && KeywordArgAt(line, q, "elif").None?
      ensures ForAt(line, q).None? && MarkerAt(line, q).None?
      ensures !CommentAt(line, q) && !BareAt(line, q, "else") && !BareAt(line, q, "endif")
      ensures !HasAt(line, q, "{% endfor %}")
    {
      if HasAt(line, q, "{%") { BraceAt(line, q, "{%"); }
      if HasAt(line, q, "{#") { BraceAt(line, q, "{#"); }
      if HasAt(line, q, "{{") { BraceAt(line, q, "{{"); }
      if HasAt(line, q, "{% endfor %}") { BraceAt(line, q, "{% endfor %}"); }
    }
    LeftmostSpec(line, 0, (l: string, p: nat) => KeywordArgAt(l, p, "if"));
    LeftmostSpec(line, 0, (l: string, p: nat) => KeywordArgAt(l, p, "elif"));
    LeftmostSpec(line, 0, ForAt);
    SomewhereSpec(line, 0, CommentAt);
    SomewhereSpec(line, 0, (l: string, p: nat) => BareAt(l, p, "else"));
    SomewhereSpec(line, 0, (l: string, p: nat) => BareAt(l, p, "endif"));
    SomewhereSpec(line, 0, (l: string, p: nat) => HasAt(l, p, "{% endfor %}"));
  }

  /** Content lines without markers render to themselves and comment lines
      vanish, in any context. */
  lemma {:induction false} RenderUnmarked(ls: seq<string>, ctx: Context, toStr: Value -> string)
    requires AllPassive(ls) && forall k :: 0 <= k < |ls| ==> NoMarkers(ls[k])
    ensures RenderPassive(ls, ctx, toStr) == Ok(Filter(ls, NotComment))
  {
    if ls != [] {
      RenderUnmarked(ls[1..], ctx, toStr);
      FilterCons(ls, NotComment);
      if !IsComment(ls[0]) {
        assert NoMarkers(ls[0]);
        NoMarkersUnchanged(ls[0], ctx, toStr);
        assert Interpolate(ls[0], ctx, toStr) == Ok(ls[0]);
        assert RenderPassive(ls[1..], ctx, toStr) == Ok(Filter(ls[1..], NotComment));
        assert NotComment(ls[0]);
        assert RenderPassive(ls, ctx, toStr) == Ok([ls[0]] + Filter(ls[1..], NotComment));
      } else {
        assert !NotComment(ls[0]);
        assert [] + Filter(ls[1..], NotComment) == Filter(ls[1..], NotComment);
      }
    }
  }

  /** Comment lines alone render to no lines at all. */
  lemma {:induction false} CommentsVanish(ls: seq<string>, ctx: Context, toStr: Value -> string)
    requires AllComments(ls)
    ensures RenderPassive(ls, ctx, toStr) == Ok([])
  {
    if ls != [] {
      assert IsComment(ls[0]);
      CommentsVanish(ls[1..], ctx, toStr);
    }
  }

  /** A template whose lines are all passive renders to its rendered lines joined. */
  lemma {:induction false} RenderPassiveTemplate(host: Host, template: string, ctx: Context)
    requires AllPassive(Split(template))
    ensures Render(host, template, ctx) ==
      match RenderPassive(Split(template), ctx, host.toStr)
      case Ok(o) => Ok(Join(o))
      case Err(x) => Err(x)
  {
    BuildPassive(host, template, ctx, CtxBound(ctx));
  }

  /** Comment lines are dropped whole and every other line keeps its place,
      in a template of comment lines and marker-free content lines
      (test/jinja2.test.ts:158-169). */
  lemma {:induction false} CommentsDropped(host: Host, template: string, ctx: Context)
    requires AllPassive(Split(template))
    requires forall k :: 0 <= k < |Split(template)| ==> NoMarkers(Split(template)[k])
    ensures Render(host, template, ctx) == Ok(Join(Filter(Split(template), NotComment)))
  {
    RenderPassiveTemplate(host, template, ctx);
    RenderUnmarked(Split(template), ctx, host.toStr);
  }

  /** A template without comments, directives or markers renders to itself. */
  lemma {:induction false} PlainTemplate(host: Host, template: string, ctx: Context)
    requires forall k :: 0 <= k < |Split(template)| ==> IsContent(Split(template)[k]) && NoMarkers(Split(template)[k])
    ensures Render(host, template, ctx) == Ok(template)
  {
    var ls := Split(template);
    JoinOfSplit(template);
    CommentsDropped(host, template, ctx);
    FilterAll(ls, NotComment);
  }

  /** In particular a template with no `{` at all renders to itself, and
      the empty template to the empty string (test/jinja2.test.ts:173-178). */
  lemma {:induction false} NoBraceTemplate(host: Host, template: string, ctx: Context)
    requires '{' !in template
    ensures Render(host, template, ctx) == Ok(template)
  {
    var ls := Split(template);
    forall k | 0 <= k < |ls|
      ensures IsContent(ls[k]) && NoMarkers(ls[k])
    {
      assert '{' !in ls[k] by {
        LineOfSplit(template, k);
      }
      NoBraceLine(ls[k]);
    }
    PlainTemplate(host, template, ctx);
  }

  lemma {:induction false} EmptyTemplate(host: Host, ctx: Context)
    ensures Render(host, "", ctx) == Ok("")
  {
    NoBraceTemplate(host, "", ctx);
  }

  /** Every character of a line of `Split(s)` is a character of `s`. */
  lemma {:induction false} LineOfSplit(s: string, k: nat)
    requires k < |Split(s)|
    ensures forall c :: c in Split(s)[k] ==> c in s
    decreases |s|
  {
    if |s| > 0 {
      var rest := Split(s[1..]);
      if s[0] == '\n' {
        if k > 0 {
          LineOfSplit(s[1..], k - 1);
        }
      } else {
        if k == 0 {
          LineOfSplit(s[1..], 0);
        } else {
          LineOfSplit(s[1..], k);
        }
      }
    }
  }
}
