/** Line classification by the regular expressions of `build`
    (src/jinja2.ts:67, 75-78, 365, 398, 425). Each matcher below is a
    deterministic re-statement of one JavaScript regular expression: the
    patterns are unanchored, so a line matches when the pattern matches
    starting at some position, and the leftmost such position wins. */
module Patterns {
  import opened Wrappers

  /** The JavaScript `\s` class. */
  predicate IsSpace(c: char) {
    || c == ' ' || c == '\t' || c == '\n' || c == '\r' || c == '\U{000B}' || c == '\U{000C}'
    || c == '\U{00A0}' || c == '\U{1680}' || ('\U{2000}' <= c <= '\U{200A}')
    || c == '\U{2028}' || c == '\U{2029}' || c == '\U{202F}' || c == '\U{205F}'
    || c == '\U{3000}' || c == '\U{FEFF}'
  }

  /** The JavaScript `\w` class. */
  predicate IsWordChar(c: char) {
    ('a' <= c <= 'z') || ('A' <= c <= 'Z') || ('0' <= c <= '9') || c == '_'
  }

  /** The characters JavaScript's `.` refuses to match. */
  predicate IsLineTerminator(c: char) {
    c == '\n' || c == '\r' || c == '\U{2028}' || c == '\U{2029}'
  }

  predicate AllSpace(s: string) {
    forall k :: 0 <= k < |s| ==> IsSpace(s[k])
  }

  predicate AllWord(s: string) {
    forall k :: 0 <= k < |s| ==> IsWordChar(s[k])
  }

  /** `lit` occurs in `line` starting at position `p`. */
  predicate HasAt(line: string, p: nat, lit: string) {
    p + |lit| <= |line| && line[p..p + |lit|] == lit
  }

  /** The end of the run of whitespace starting at `p` (a greedy `\s*`). */
  function SkipSpace(line: string, p: nat): (r: nat)
    requires p <= |line|
    ensures p <= r <= |line|
    decreases |line| - p
  {
    if p == |line| || !IsSpace(line[p]) then p else SkipSpace(line, p + 1)
  }

  /** The run is maximal: whitespace up to the end, and none at the end. */
  lemma {:induction false} SkipSpaceSpec(line: string, p: nat)
    requires p <= |line|
    ensures forall k :: p <= k < SkipSpace(line, p) ==> IsSpace(line[k])
    ensures SkipSpace(line, p) == |line| || !IsSpace(line[SkipSpace(line, p)])
    decreases |line| - p
  {
    if p < |line| && IsSpace(line[p]) {
      SkipSpaceSpec(line, p + 1);
    }
  }

  /** The end of the run of word characters starting at `p` (a greedy `\w*`). */
  function SkipWord(line: string, p: nat): (r: nat)
    requires p <= |line|
    ensures p <= r <= |line|
    decreases |line| - p
  {
    if p == |line| || !IsWordChar(line[p]) then p else SkipWord(line, p + 1)
  }

  lemma {:induction false} SkipWordSpec(line: string, p: nat)
    requires p <= |line|
    ensures forall k :: p <= k < SkipWord(line, p) ==> IsWordChar(line[k])
    ensures SkipWord(line, p) == |line| || !IsWordChar(line[SkipWord(line, p)])
    decreases |line| - p
  {
    if p < |line| && IsWordChar(line[p]) {
      SkipWordSpec(line, p + 1);
    }
  }

  /** The lazy tail `(.*?)\s*%}` of the if/elif patterns, tried from `e`: the
      first position from which optional whitespace leads to `%}`, provided no
      line terminator lies before it. */
  function LazyClose(line: string, e: nat): (r: Option<nat>)
    requires e <= |line|
    ensures r.Some? ==> e <= r.value <= |line|
    decreases |line| - e
  {
    if HasAt(line, SkipSpace(line, e), "%}") then Some(e)
    else if e == |line| || IsLineTerminator(line[e]) then None
    else LazyClose(line, e + 1)
  }

  /** The lazy capture ends at the first position from which `\s*%}`
      matches, with no line terminator before it; there is none exactly when
      a line terminator comes before every such position. */
  lemma {:induction false} LazyCloseSpec(line: string, e: nat)
    requires e <= |line|
    ensures LazyClose(line, e).Some? ==> HasAt(line, SkipSpace(line, LazyClose(line, e).value), "%}")
    ensures LazyClose(line, e).Some? ==> forall k :: e <= k < LazyClose(line, e).value ==> !IsLineTerminator(line[k])
    ensures LazyClose(line, e).Some? ==> forall k :: e <= k < LazyClose(line, e).value ==> !HasAt(line, SkipSpace(line, k), "%}")
    ensures LazyClose(line, e).None? ==> forall q :: e <= q <= |line| && HasAt(line, SkipSpace(line, q), "%}") ==>
                          exists k :: e <= k < q && IsLineTerminator(line[k])
    decreases |line| - e
  {
    if !HasAt(line, SkipSpace(line, e), "%}") && e < |line| && !IsLineTerminator(line[e]) {
      LazyCloseSpec(line, e + 1);
    }
  }

  /** `{%\s*KW\s+(.*?)\s*%}` matched at `p`, giving the captured condition. */
  function KeywordArgAt(line: string, p: nat, kw: string): Option<string>
  {
    if !HasAt(line, p, "{%") then None
    else
      var a := SkipSpace(line, p + 2);
      if !HasAt(line, a, kw) then None
      else
        var w := SkipSpace(line, a + |kw|);
        if w == a + |kw| then None
        else
          match LazyClose(line, w)
          case None => None
          case Some(e) => Some(line[w..e])
  }

  /** `{%\s*KW\s*%}` matched at `p`. */
  predicate BareAt(line: string, p: nat, kw: string) {
    && HasAt(line, p, "{%")
    && var a := SkipSpace(line, p + 2);
    && HasAt(line, a, kw)
    && HasAt(line, SkipSpace(line, a + |kw|), "%}")
  }

  /** The names captured by `{%\s*for\s+(\w+)\s+in\s+(\w+)\s*%}`. */
  datatype ForHead = ForHead(item: string, list: string)

  /** The for-loop pattern matched at `p`. */
  function ForAt(line: string, p: nat): Option<ForHead>
  {
    if !HasAt(line, p, "{%") then None
    else
      var a := SkipSpace(line, p + 2);
      if !HasAt(line, a, "for") then None
      else
        var b := SkipSpace(line, a + 3);
        var c := SkipWord(line, b);
        var d := SkipSpace(line, c);
        if b == a + 3 || c == b || d == c || !HasAt(line, d, "in") then None
        else
          var e := SkipSpace(line, d + 2);
          var f := SkipWord(line, e);
          if e == d + 2 || f == e || !HasAt(line, SkipSpace(line, f), "%}") then None
          else Some(ForHead(line[b..c], line[e..f]))
  }

  /** `.*#}` tried from `q`: a `#}` with no line terminator before it. */
  predicate CommentCloses(line: string, q: nat)
    requires q <= |line|
    decreases |line| - q
  {
    if HasAt(line, q, "#}") then true
    else if q == |line| || IsLineTerminator(line[q]) then false
    else CommentCloses(line, q + 1)
  }

  /** `{#.*#}` matched at `p`. */
  predicate CommentAt(line: string, p: nat) {
    HasAt(line, p, "{#") && CommentCloses(line, p + 2)
  }

  /** The leftmost match of a pattern given by its matcher `at`. */
  function Leftmost<T>(line: string, p: nat, at: (string, nat) -> Option<T>): Option<T>
    decreases |line| - p
  {
    if p >= |line| then None
    else if at(line, p).Some? then at(line, p)
    else Leftmost(line, p + 1, at)
  }

  /** The leftmost match is the match at the first position where the
      pattern matches, and there is none exactly when it matches nowhere. */
  lemma {:induction false} LeftmostSpec<T>(line: string, p: nat, at: (string, nat) -> Option<T>)
    ensures Leftmost(line, p, at).Some? ==>
      exists q :: p <= q < |line| && Leftmost(line, p, at) == at(line, q) && forall q' :: p <= q' < q ==> at(line, q').None?
    ensures Leftmost(line, p, at).None? <==> forall q :: p <= q < |line| ==> at(line, q).None?
    decreases |line| - p
  {
    if p < |line| && at(line, p).None? {
      LeftmostSpec(line, p + 1, at);
    }
  }

  /** Whether a pattern given by its matcher `at` matches anywhere from `p` on. */
  predicate Somewhere(line: string, p: nat, at: (string, nat) -> bool)
    decreases |line| - p
  {
    if p >= |line| then false
    else at(line, p) || Somewhere(line, p + 1, at)
  }

  lemma {:induction false} SomewhereSpec(line: string, p: nat, at: (string, nat) -> bool)
    ensures Somewhere(line, p, at) <==> exists q :: p <= q < |line| && at(line, q)
    decreases |line| - p
  {
    if p < |line| {
      SomewhereSpec(line, p + 1, at);
    }
  }

  function IfCondition(line: string): Option<string> {
    Leftmost(line, 0, (l: string, p: nat) => KeywordArgAt(l, p, "if"))
  }

  function ElifCondition(line: string): Option<string> {
    Leftmost(line, 0, (l: string, p: nat) => KeywordArgAt(l, p, "elif"))
  }

  function ForHeader(line: string): Option<ForHead> {
    Leftmost(line, 0, ForAt)
  }

  predicate IsComment(line: string) {
    Somewhere(line, 0, CommentAt)
  }

  predicate IsIf(line: string) {
    IfCondition(line).Some?
  }

  predicate IsElif(line: string) {
    ElifCondition(line).Some?
  }

  predicate IsElse(line: string) {
    Somewhere(line, 0, (l: string, p: nat) => BareAt(l, p, "else"))
  }

  predicate IsEndif(line: string) {
    Somewhere(line, 0, (l: string, p: nat) => BareAt(l, p, "endif"))
  }

  predicate IsFor(line: string) {
    ForHeader(line).Some?
  }

  /** `{% endfor %}`, with exactly this spacing. */
  predicate IsEndfor(line: string) {
    Somewhere(line, 0, (l: string, p: nat) => HasAt(l, p, "{% endfor %}"))
  }
}
