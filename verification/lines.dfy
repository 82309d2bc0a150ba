/** Splitting a template into lines on '\n' and joining lines back, as
    `String.prototype.split('\n')` and `Array.prototype.join('\n')` do. */
module Lines {

  predicate NoNewline(s: string) {
    '\n' !in s
  }

  predicate AllNoNewline(ls: seq<string>) {
    forall k :: 0 <= k < |ls| ==> NoNewline(ls[k])
  }

  /** The lines joined with a '\n' between each two neighbours. */
  function Join(ls: seq<string>): string
  {
    if |ls| == 0 then ""
    else if |ls| == 1 then ls[0]
    else ls[0] + "\n" + Join(ls[1..])
  }

  /** The maximal newline-free pieces of `s`, in order; never empty, since
      splitting the empty string yields one empty line. */
  function Split(s: string): (r: seq<string>)
    ensures |r| >= 1
    decreases |s|
  {
    if |s| == 0 then [""]
    else
      var rest := Split(s[1..]);
      if s[0] == '\n' then [""] + rest
      else [[s[0]] + rest[0]] + rest[1..]
  }

  /** No piece holds a '\n', and joining the pieces gives `s` back. */
  lemma {:induction false} JoinOfSplit(s: string)
    ensures AllNoNewline(Split(s)) && Join(Split(s)) == s
    decreases |s|
  {
    if |s| > 0 {
      var rest := Split(s[1..]);
      JoinOfSplit(s[1..]);
      if s[0] == '\n' {
        assert ([""] + rest)[1..] == rest;
      } else {
        var r := [[s[0]] + rest[0]] + rest[1..];
        assert r[1..] == rest[1..];
        assert s == [s[0]] + s[1..];
      }
    }
  }

  /** The number of characters a sequence of lines occupies, counting one
      separator or terminator per line. */
  function TotalLen(ls: seq<string>): nat
  {
    if |ls| == 0 then 0 else |ls[0]| + 1 + TotalLen(ls[1..])
  }

  lemma {:induction false} JoinLength(ls: seq<string>)
    ensures |Join(ls)| == if |ls| == 0 then 0 else TotalLen(ls) - 1
  {
    if |ls| > 1 {
      JoinLength(ls[1..]);
    }
  }

  lemma {:induction false} TotalLenAppend(a: seq<string>, b: seq<string>)
    ensures TotalLen(a + b) == TotalLen(a) + TotalLen(b)
  {
    if |a| > 0 {
      assert (a + b)[1..] == a[1..] + b;
      TotalLenAppend(a[1..], b);
    } else {
      assert a + b == b;
    }
  }

  /** Joining two non-empty runs of lines puts exactly one separator between them. */
  lemma {:induction false} JoinAppend(a: seq<string>, b: seq<string>)
    requires |a| > 0 && |b| > 0
    ensures Join(a + b) == Join(a) + "\n" + Join(b)
  {
    if |a| == 1 {
      assert (a + b)[1..] == b;
    } else {
      assert (a + b)[1..] == a[1..] + b;
      JoinAppend(a[1..], b);
    }
  }

  /** A newline-free string is one line. */
  lemma {:induction false} SplitLine(s: string)
    requires NoNewline(s)
    ensures Split(s) == [s]
    decreases |s|
  {
    if |s| > 0 {
      SplitLine(s[1..]);
      assert [s[0]] + s[1..] == s;
    }
  }

  /** A newline-free prefix before a '\n' becomes the first line. */
  lemma {:induction false} SplitCons(x: string, y: string)
    requires NoNewline(x)
    ensures Split(x + "\n" + y) == [x] + Split(y)
    decreases |x|
  {
    if |x| == 0 {
      assert x + "\n" + y == "\n" + y;
      assert ("\n" + y)[1..] == y;
    } else {
      var s := x + "\n" + y;
      assert s[1..] == x[1..] + "\n" + y;
      SplitCons(x[1..], y);
      assert [x[0]] + x[1..] == x;
    }
  }

  /** Splitting undoes joining when there is at least one line and no line holds a '\n'. */
  lemma {:induction false} SplitOfJoin(ls: seq<string>)
    requires |ls| >= 1 && AllNoNewline(ls)
    ensures Split(Join(ls)) == ls
  {
    if |ls| == 1 {
      SplitLine(ls[0]);
    } else {
      SplitCons(ls[0], Join(ls[1..]));
      SplitOfJoin(ls[1..]);
      assert ls == [ls[0]] + ls[1..];
    }
  }

  /** Splicing the split pieces of a string in front of other lines is the
      same, once joined, as splicing the string itself. */
  lemma {:induction false} JoinSpliceFront(s: string, c: seq<string>)
    ensures Join(Split(s) + c) == Join([s] + c)
  {
    var m := Split(s);
    JoinOfSplit(s);
    if |c| == 0 {
      assert m + c == m;
      assert [s] + c == [s];
    } else {
      JoinAppend(m, c);
      JoinAppend([s], c);
    }
  }

  /** The lines satisfying `keep`, in their original order. */
  function Filter(ls: seq<string>, keep: string -> bool): (r: seq<string>)
    ensures |r| <= |ls|
  {
    if |ls| == 0 then []
    else (if keep(ls[0]) then [ls[0]] else []) + Filter(ls[1..], keep)
  }

  lemma {:induction false} FilterCons(ls: seq<string>, keep: string -> bool)
    requires |ls| > 0
    ensures Filter(ls, keep) == (if keep(ls[0]) then [ls[0]] else []) + Filter(ls[1..], keep)
  {
  }

  /** Keeping some of the lines keeps them free of '\n'. */
  lemma {:induction false} FilterNoNewline(ls: seq<string>, keep: string -> bool)
    requires AllNoNewline(ls)
    ensures AllNoNewline(Filter(ls, keep))
  {
    if |ls| > 0 {
      FilterNoNewline(ls[1..], keep);
      FilterCons(ls, keep);
    }
  }

  lemma {:induction false} TotalLenFilter(ls: seq<string>, keep: string -> bool)
    ensures TotalLen(Filter(ls, keep)) <= TotalLen(ls)
  {
    if |ls| > 0 {
      TotalLenFilter(ls[1..], keep);
      TotalLenAppend(if keep(ls[0]) then [ls[0]] else [], Filter(ls[1..], keep));
    }
  }

  lemma {:induction false} FilterAppend(a: seq<string>, b: seq<string>, keep: string -> bool)
    ensures Filter(a + b, keep) == Filter(a, keep) + Filter(b, keep)
  {
    if |a| > 0 {
      assert (a + b)[1..] == a[1..] + b;
      FilterAppend(a[1..], b, keep);
    } else {
      assert a + b == b;
    }
  }

  /** Filtering keeps a sequence whose every line is kept. */
  lemma {:induction false} FilterAll(ls: seq<string>, keep: string -> bool)
    requires forall k :: 0 <= k < |ls| ==> keep(ls[k])
    ensures Filter(ls, keep) == ls
  {
    if ls != [] {
      FilterAll(ls[1..], keep);
      assert ls == [ls[0]] + ls[1..];
    }
  }

  /** Lines taken from the part of `ls` after a non-empty line `ls[i]` join
      into a string shorter than the whole of `ls` joined. */
  lemma {:induction false} FilterShorter(ls: seq<string>, i: nat, j: nat, keep: string -> bool)
    requires i < j <= |ls| && |ls[i]| > 0
    ensures |Join(Filter(ls[i + 1..j], keep))| < |Join(ls)|
  {
    var body := Filter(ls[i + 1..j], keep);
    assert ls == ls[..i] + [ls[i]] + ls[i + 1..j] + ls[j..];
    TotalLenAppend(ls[..i] + [ls[i]] + ls[i + 1..j], ls[j..]);
    TotalLenAppend(ls[..i] + [ls[i]], ls[i + 1..j]);
    TotalLenAppend(ls[..i], [ls[i]]);
    TotalLenFilter(ls[i + 1..j], keep);
    JoinLength(body);
    JoinLength(ls);
  }
}
