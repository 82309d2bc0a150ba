/** `{{ name }}` interpolation of a content line (src/jinja2.ts:424-433): the
    line is cut into literal text and variable markers, matched left to right
    by `{{\s*(\w+)\s*}}` as a global `replace` does, and each marker is
    replaced by the string form of the bound value. */
module Interpolation {
  import opened Wrappers
  import opened Patterns
  import opened Values

  /** A piece of a content line: literal text, or a marker match with its
      matched text and captured name (the two arguments the `replace`
      callback receives). */
  datatype Segment = Text(s: string) | Var(text: string, name: string)

  /** The source text of a segment. */
  function Raw(seg: Segment): string {
    match seg
    case Text(s) => s
    case Var(text, _) => text
  }

  function Flatten(segs: seq<Segment>): string {
    if segs == [] then "" else Raw(segs[0]) + Flatten(segs[1..])
  }

  /** `text` is `{{`, whitespace, the word `name`, whitespace, `}}`. */
  ghost predicate MarkerShape(text: string, name: string) {
    && |name| > 0 && AllWord(name)
    && exists pre, post :: AllSpace(pre) && AllSpace(post) && text == "{{" + pre + name + post + "}}"
  }

  /** Text is never empty; a marker names a word and holds it between
      `{{` and `}}`. */
  predicate WellFormed(seg: Segment) {
    match seg
    case Text(s) => |s| > 0
    case Var(text, name) => 4 + |name| <= |text| && |name| > 0 && AllWord(name)
  }

  predicate NoVars(segs: seq<Segment>) {
    forall j :: 0 <= j < |segs| ==> segs[j].Text?
  }

  /** Every marker in `segs` names a variable bound in `ctx`. */
  predicate AllBound(segs: seq<Segment>, ctx: Context) {
    forall j :: 0 <= j < |segs| ==> segs[j].Var? ==> segs[j].name in ctx
  }

  /** Whether `line` holds the two characters `c` at `p` and `p + 1`. */
  predicate PairAt(line: string, p: nat, c: char) {
    p + 1 < |line| && line[p] == c && line[p + 1] == c
  }

  /** The marker pattern matched at `p`. */
  function MarkerAt(line: string, p: nat): (r: Option<Segment>)
    ensures r.Some? ==> r.value.Var? && p + |Raw(r.value)| <= |line|
  {
    if !PairAt(line, p, '{') then None
    else
      var a := SkipSpace(line, p + 2);
      var b := SkipWord(line, a);
      var c := SkipSpace(line, b);
      if b == a || !PairAt(line, c, '}') then None
      else Some(Var(line[p..c + 2], line[a..b]))
  }

  /** A matched marker is well formed and is the text at `p`. */
  lemma {:induction false} MarkerText(line: string, p: nat)
    requires MarkerAt(line, p).Some?
    ensures WellFormed(MarkerAt(line, p).value) && HasAt(line, p, Raw(MarkerAt(line, p).value))
    ensures MarkerShape(MarkerAt(line, p).value.text, MarkerAt(line, p).value.name)
  {
    var a := SkipSpace(line, p + 2);
    var b := SkipWord(line, a);
    var c := SkipSpace(line, b);
    assert MarkerAt(line, p) == Some(Var(line[p..c + 2], line[a..b]));
    SkipSpaceSpec(line, p + 2);
    SkipWordSpec(line, a);
    SkipSpaceSpec(line, b);
    MarkerParts(line, p, a, b, c);
  }

  lemma {:induction false} MarkerParts(line: string, p: nat, a: nat, b: nat, c: nat)
    requires p + 2 <= a <= b <= c && PairAt(line, p, '{') && PairAt(line, c, '}') && a < b
    requires forall k :: p + 2 <= k < a ==> IsSpace(line[k])
    requires forall k :: a <= k < b ==> IsWordChar(line[k])
    requires forall k :: b <= k < c ==> IsSpace(line[k])
    ensures MarkerShape(line[p..c + 2], line[a..b])
  {
    SliceFive(line, p, p + 2, a, b, c, c + 2);
    assert line[p..p + 2] == "{{" && line[c..c + 2] == "}}";
    assert line[p..c + 2] == "{{" + line[p + 2..a] + line[a..b] + line[b..c] + "}}";
    assert AllSpace(line[p + 2..a]) && AllSpace(line[b..c]);
  }

  lemma {:induction false} SliceFive(s: string, i0: nat, i1: nat, i2: nat, i3: nat, i4: nat, i5: nat)
    requires i0 <= i1 <= i2 <= i3 <= i4 <= i5 <= |s|
    ensures s[i0..i5] == s[i0..i1] + s[i1..i2] + s[i2..i3] + s[i3..i4] + s[i4..i5]
  {
    SliceTwo(s, i0, i1, i5);
    SliceTwo(s, i1, i2, i5);
    SliceTwo(s, i2, i3, i5);
    SliceTwo(s, i3, i4, i5);
  }

  lemma {:induction false} SliceTwo(s: string, i: nat, j: nat, k: nat)
    requires i <= j <= k <= |s|
    ensures s[i..k] == s[i..j] + s[j..k]
  {
  }

  /** The marker match at every position of `line`. */
  function Markers(line: string): (ms: seq<Option<Segment>>)
    ensures |ms| == |line| && forall q :: 0 <= q < |line| ==> ms[q] == MarkerAt(line, q)
  {
    seq(|line|, q requires 0 <= q < |line| => MarkerAt(line, q))
  }

  /** A table of matches for `line`: each match is a marker that fits in
      the line from its position on. */
  predicate Fits(line: string, ms: seq<Option<Segment>>) {
    && |ms| == |line|
    && forall q :: 0 <= q < |ms| && ms[q].Some? ==> ms[q].value.Var? && 0 < |Raw(ms[q].value)| && q + |Raw(ms[q].value)| <= |line|
  }

  /** Each match in the table is the text of the line at its position,
      character by character. */
  predicate InPlace(line: string, ms: seq<Option<Segment>>)
    requires |ms| == |line|
  {
    forall q, k :: 0 <= q < |ms| && ms[q].Some? && 0 <= k < |Raw(ms[q].value)| && q + k < |line| ==>
      line[q + k] == Raw(ms[q].value)[k]
  }

  lemma {:induction false} InPlaceAt(line: string, ms: seq<Option<Segment>>, p: nat)
    requires Fits(line, ms) && InPlace(line, ms) && p < |line| && ms[p].Some?
    ensures HasAt(line, p, Raw(ms[p].value))
  {
    var lit := Raw(ms[p].value);
    var w := line[p..p + |lit|];
    assert forall k :: 0 <= k < |lit| ==> w[k] == line[p + k];
  }

  /** Each match in the table is well formed. */
  predicate MatchesFormed(ms: seq<Option<Segment>>) {
    forall q :: 0 <= q < |ms| && ms[q].Some? ==> WellFormed(ms[q].value)
  }

  lemma {:induction false} MarkersFit(line: string)
    ensures Fits(line, Markers(line)) && InPlace(line, Markers(line)) && MatchesFormed(Markers(line))
  {
    var ms := Markers(line);
    forall q | 0 <= q < |ms| && ms[q].Some?
      ensures WellFormed(ms[q].value)
      ensures forall k :: 0 <= k < |Raw(ms[q].value)| ==> line[q + k] == Raw(ms[q].value)[k]
    {
      MarkerText(line, q);
      var lit := Raw(ms[q].value);
      var w := line[q..q + |lit|];
      assert forall k :: 0 <= k < |lit| ==> w[k] == line[q + k];
    }
  }

  /** Adds one literal character in front of a segmentation, merging it into
      a leading text segment. */
  function PushChar(c: char, segs: seq<Segment>): (r: seq<Segment>)
    ensures |r| > 0 && r[0].Text?
  {
    if |segs| > 0 && segs[0].Text? then [Text([c] + segs[0].s)] + segs[1..]
    else [Text([c])] + segs
  }

  lemma {:induction false} PushCharFlatten(c: char, segs: seq<Segment>)
    ensures Flatten(PushChar(c, segs)) == [c] + Flatten(segs)
  {
    var r := PushChar(c, segs);
    if |segs| > 0 && segs[0].Text? {
      assert r[1..] == segs[1..];
    } else {
      assert r[1..] == segs;
    }
  }

  lemma {:induction false} PushCharWellFormed(c: char, segs: seq<Segment>)
    requires forall j :: 0 <= j < |segs| ==> WellFormed(segs[j])
    ensures forall j :: 0 <= j < |PushChar(c, segs)| ==> WellFormed(PushChar(c, segs)[j])
    ensures NoVars(segs) ==> NoVars(PushChar(c, segs))
  {
    var r := PushChar(c, segs);
    if |segs| > 0 && segs[0].Text? {
      assert forall j :: 1 <= j < |r| ==> r[j] == segs[j];
    } else {
      assert forall j :: 1 <= j < |r| ==> r[j] == segs[j - 1];
    }
  }

  /** The segmentation of `line` from position `p` on, given the match at
      each position: a match becomes a marker segment and the scan goes on
      past it, otherwise the character is literal text. */
  function SegmentsFrom(line: string, ms: seq<Option<Segment>>, p: nat): seq<Segment>
    requires Fits(line, ms) && p <= |line|
    decreases |line| - p
  {
    if p == |line| then []
    else
      match ms[p]
      case Some(v) => [v] + SegmentsFrom(line, ms, p + |Raw(v)|)
      case None => PushChar(line[p], SegmentsFrom(line, ms, p + 1))
  }

  /** The segments spell out the rest of the line. */
  lemma {:induction false} SegmentsFromFlatten(line: string, ms: seq<Option<Segment>>, p: nat)
    requires Fits(line, ms) && InPlace(line, ms) && p <= |line|
    ensures Flatten(SegmentsFrom(line, ms, p)) == line[p..]
    decreases |line| - p, 1
  {
    if p == |line| {
      FlattenEnd(line, ms);
    } else if ms[p].Some? {
      FlattenMarker(line, ms, p);
    } else {
      FlattenChar(line, ms, p);
    }
  }

  lemma {:induction false} FlattenMarker(line: string, ms: seq<Option<Segment>>, p: nat)
    requires Fits(line, ms) && InPlace(line, ms) && p < |line| && ms[p].Some?
    ensures Flatten(SegmentsFrom(line, ms, p)) == line[p..]
    decreases |line| - p, 0
  {
    var q := p + |Raw(ms[p].value)|;
    InPlaceAt(line, ms, p);
    SegmentsFromFlatten(line, ms, q);
    FlattenMarkerStep(line, ms, p);
  }

  lemma {:induction false} FlattenChar(line: string, ms: seq<Option<Segment>>, p: nat)
    requires Fits(line, ms) && InPlace(line, ms) && p < |line| && ms[p].None?
    ensures Flatten(SegmentsFrom(line, ms, p)) == line[p..]
    decreases |line| - p, 0
  {
    SegmentsFromFlatten(line, ms, p + 1);
    FlattenCharStep(line, ms, p);
  }

  lemma {:induction false} FlattenEnd(line: string, ms: seq<Option<Segment>>)
    requires Fits(line, ms)
    ensures Flatten(SegmentsFrom(line, ms, |line|)) == line[|line|..]
  {
  }

  lemma {:induction false} FlattenMarkerStep(line: string, ms: seq<Option<Segment>>, p: nat)
    requires Fits(line, ms) && p < |line| && ms[p].Some? && HasAt(line, p, Raw(ms[p].value))
    requires Flatten(SegmentsFrom(line, ms, p + |Raw(ms[p].value)|)) == line[p + |Raw(ms[p].value)|..]
    ensures Flatten(SegmentsFrom(line, ms, p)) == line[p..]
  {
    var v := ms[p].value;
    var rest := SegmentsFrom(line, ms, p + |Raw(v)|);
    SegmentsFromMarker(line, ms, p);
    FlattenCons(v, rest);
    SliceAt(line, p, Raw(v));
  }

  lemma {:induction false} SegmentsFromMarker(line: string, ms: seq<Option<Segment>>, p: nat)
    requires Fits(line, ms) && p < |line| && ms[p].Some?
    ensures SegmentsFrom(line, ms, p) == [ms[p].value] + SegmentsFrom(line, ms, p + |Raw(ms[p].value)|)
  {
  }

  lemma {:induction false} FlattenCharStep(line: string, ms: seq<Option<Segment>>, p: nat)
    requires Fits(line, ms) && p < |line| && ms[p].None?
    requires Flatten(SegmentsFrom(line, ms, p + 1)) == line[p + 1..]
    ensures Flatten(SegmentsFrom(line, ms, p)) == line[p..]
  {
    SegmentsFromChar(line, ms, p);
    PushCharFlatten(line[p], SegmentsFrom(line, ms, p + 1));
    assert line[p..] == [line[p]] + line[p + 1..];
  }

  lemma {:induction false} SegmentsFromChar(line: string, ms: seq<Option<Segment>>, p: nat)
    requires Fits(line, ms) && p < |line| && ms[p].None?
    ensures SegmentsFrom(line, ms, p) == PushChar(line[p], SegmentsFrom(line, ms, p + 1))
  {
  }

  lemma {:induction false} FlattenCons(v: Segment, rest: seq<Segment>)
    ensures Flatten([v] + rest) == Raw(v) + Flatten(rest)
  {
    assert ([v] + rest)[1..] == rest;
  }

  lemma {:induction false} SliceAt(line: string, p: nat, lit: string)
    requires HasAt(line, p, lit)
    ensures line[p..] == lit + line[p + |lit|..]
  {
    assert line[p..] == line[p..p + |lit|] + line[p + |lit|..];
  }

  /** Every segment is well formed. */
  lemma {:induction false} SegmentsFromWellFormed(line: string, ms: seq<Option<Segment>>, p: nat)
    requires Fits(line, ms) && MatchesFormed(ms) && p <= |line|
    ensures forall j :: 0 <= j < |SegmentsFrom(line, ms, p)| ==> WellFormed(SegmentsFrom(line, ms, p)[j])
    decreases |line| - p
  {
    if p < |line| {
      match ms[p]
      case Some(v) =>
        var rest := SegmentsFrom(line, ms, p + |Raw(v)|);
        SegmentsFromWellFormed(line, ms, p + |Raw(v)|);
        WellFormedCons(v, rest);
      case None =>
        SegmentsFromWellFormed(line, ms, p + 1);
        PushCharWellFormed(line[p], SegmentsFrom(line, ms, p + 1));
    }
  }

  lemma {:induction false} WellFormedCons(v: Segment, rest: seq<Segment>)
    requires WellFormed(v) && forall j :: 0 <= j < |rest| ==> WellFormed(rest[j])
    ensures forall j :: 0 <= j < |[v] + rest| ==> WellFormed(([v] + rest)[j])
  {
    assert forall j :: 1 <= j < |[v] + rest| ==> ([v] + rest)[j] == rest[j - 1];
  }

  /** Without any match there is no marker segment. */
  lemma {:induction false} SegmentsFromNoVars(line: string, ms: seq<Option<Segment>>, p: nat)
    requires Fits(line, ms) && MatchesFormed(ms) && p <= |line|
    requires forall q :: p <= q < |line| ==> ms[q].None?
    ensures NoVars(SegmentsFrom(line, ms, p))
    decreases |line| - p
  {
    if p < |line| {
      SegmentsFromWellFormed(line, ms, p + 1);
      SegmentsFromNoVars(line, ms, p + 1);
      PushCharWellFormed(line[p], SegmentsFrom(line, ms, p + 1));
    }
  }

  function Segments(line: string): seq<Segment> {
    MarkersFit(line);
    SegmentsFrom(line, Markers(line), 0)
  }

  /** Joining the segments' texts gives the line back, and each segment is
      well formed. */
  lemma {:induction false} SegmentsSpec(line: string)
    ensures Flatten(Segments(line)) == line
    ensures forall j :: 0 <= j < |Segments(line)| ==> WellFormed(Segments(line)[j])
  {
    MarkersFit(line);
    SegmentsFromFlatten(line, Markers(line), 0);
    assert line[0..] == line;
    SegmentsFromWellFormed(line, Markers(line), 0);
  }

  /** The text a segment stands for, or the error for an unbound marker. */
  function Resolve(seg: Segment, ctx: Context, toStr: Value -> string): Result<string, Error> {
    match seg
    case Text(s) => Ok(s)
    case Var(_, name) => if name in ctx then Ok(toStr(ctx[name])) else Err(UndefinedVar(name))
  }

  /** The segments with every marker replaced; fails on the first unbound marker. */
  function Substitute(segs: seq<Segment>, ctx: Context, toStr: Value -> string): Result<string, Error> {
    if segs == [] then Ok("")
    else
      var head :- Resolve(segs[0], ctx, toStr);
      var tail :- Substitute(segs[1..], ctx, toStr);
      Ok(head + tail)
  }

  /** Substitution succeeds exactly when every marker is bound; a failure
      names the first unbound marker; segments without markers substitute to
      their own text. */
  lemma {:induction false} SubstituteSpec(segs: seq<Segment>, ctx: Context, toStr: Value -> string)
    ensures Substitute(segs, ctx, toStr).Ok? <==> AllBound(segs, ctx)
    ensures Substitute(segs, ctx, toStr).Err? ==>
      exists j :: 0 <= j < |segs| && segs[j].Var? && segs[j].name !in ctx
                  && Substitute(segs, ctx, toStr).error == UndefinedVar(segs[j].name) && AllBound(segs[..j], ctx)
    ensures NoVars(segs) ==> Substitute(segs, ctx, toStr) == Ok(Flatten(segs))
  {
    if segs != [] {
      SubstituteSpec(segs[1..], ctx, toStr);
      assert forall j :: 1 <= j < |segs| ==> segs[1..][j - 1] == segs[j];
      assert segs[..1] == [segs[0]];
      assert forall j :: 0 <= j < |segs| - 1 ==> segs[..j + 1][1..] == segs[1..][..j];
    }
  }

  /** A content line with its markers replaced (src/jinja2.ts:425-432). */
  function Interpolate(line: string, ctx: Context, toStr: Value -> string): Result<string, Error> {
    Substitute(Segments(line), ctx, toStr)
  }

  /** The global `replace` of src/jinja2.ts:425-432 read directly off the
      line, with `ms` the pattern's match at each position: a match is
      replaced by its bound value's string form, or the callback throws for
      an unbound name, and the scan resumes after the match; otherwise the
      character is kept. */
  function ReplaceFrom(line: string, ms: seq<Option<Segment>>, p: nat, ctx: Context, toStr: Value -> string): Result<string, Error>
    requires Fits(line, ms) && p <= |line|
    decreases |line| - p
  {
    if p == |line| then Ok("")
    else
      match ms[p]
      case Some(v) =>
        if v.name !in ctx then Err(UndefinedVar(v.name))
        else
          var rest :- ReplaceFrom(line, ms, p + |Raw(v)|, ctx, toStr);
          Ok(toStr(ctx[v.name]) + rest)
      case None =>
        var rest :- ReplaceFrom(line, ms, p + 1, ctx, toStr);
        Ok([line[p]] + rest)
  }

  /** The replacement of every marker of `line`. */
  function Replace(line: string, ctx: Context, toStr: Value -> string): Result<string, Error> {
    MarkersFit(line);
    ReplaceFrom(line, Markers(line), 0, ctx, toStr)
  }

  /** A literal character in front of a segmentation is a literal character
      in front of its substitution. */
  lemma {:induction false} SubstitutePush(c: char, segs: seq<Segment>, ctx: Context, toStr: Value -> string)
    ensures Substitute(PushChar(c, segs), ctx, toStr) ==
      match Substitute(segs, ctx, toStr)
      case Ok(t) => Ok([c] + t)
      case Err(x) => Err(x)
  {
    var r := PushChar(c, segs);
    if |segs| > 0 && segs[0].Text? {
      assert r[1..] == segs[1..];
      match Substitute(segs[1..], ctx, toStr)
      case Err(_) =>
      case Ok(tail) =>
        assert [c] + (segs[0].s + tail) == [c] + segs[0].s + tail;
    } else {
      assert r[1..] == segs;
    }
  }

  /** A marker in front of a segmentation resolves before the rest. */
  lemma {:induction false} SubstituteCons(v: Segment, rest: seq<Segment>, ctx: Context, toStr: Value -> string)
    requires v.Var?
    ensures Substitute([v] + rest, ctx, toStr) ==
      if v.name !in ctx then Err(UndefinedVar(v.name))
      else match Substitute(rest, ctx, toStr)
        case Ok(t) => Ok(toStr(ctx[v.name]) + t)
        case Err(x) => Err(x)
  {
    assert ([v] + rest)[1..] == rest;
  }

  /** Substituting the segmentation is the direct replacement scan. */
  lemma {:induction false} SegmentsReplace(line: string, ms: seq<Option<Segment>>, p: nat, ctx: Context, toStr: Value -> string)
    requires Fits(line, ms) && p <= |line|
    ensures Substitute(SegmentsFrom(line, ms, p), ctx, toStr) == ReplaceFrom(line, ms, p, ctx, toStr)
    decreases |line| - p
  {
    if p < |line| {
      match ms[p]
      case Some(v) =>
        SegmentsReplace(line, ms, p + |Raw(v)|, ctx, toStr);
        SubstituteCons(v, SegmentsFrom(line, ms, p + |Raw(v)|), ctx, toStr);
      case None =>
        SegmentsReplace(line, ms, p + 1, ctx, toStr);
        SubstitutePush(line[p], SegmentsFrom(line, ms, p + 1), ctx, toStr);
    }
  }

  /** Interpolation is the global replacement of every marker by its bound
      value's string form, failing at the first unbound name. */
  lemma {:induction false} InterpolateReplaces(line: string, ctx: Context, toStr: Value -> string)
    ensures Interpolate(line, ctx, toStr) == Replace(line, ctx, toStr)
  {
    MarkersFit(line);
    SegmentsReplace(line, Markers(line), 0, ctx, toStr);
  }

  /** A line with no marker interpolates to itself, whatever the context. */
  lemma {:induction false} NoMarkersUnchanged(line: string, ctx: Context, toStr: Value -> string)
    requires forall q :: 0 <= q < |line| ==> MarkerAt(line, q).None?
    ensures Interpolate(line, ctx, toStr) == Ok(line)
  {
    MarkersFit(line);
    SegmentsFromNoVars(line, Markers(line), 0);
    SegmentsSpec(line);
    SubstituteSpec(Segments(line), ctx, toStr);
  }
}
