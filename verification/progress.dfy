/** Why the scan of `build` terminates although `endfor` moves the cursor
    backwards. Every line position carries a digit: the start line of an open
    loop carries `b + 1 - index`, an unvisited line `b + 2`, a passed line `0`,
    where `b` bounds every list in the context. Reading the digits as a number
    in base `b + 3`, every step of the scan makes it smaller: moving forward
    zeroes the digit of the line left behind, opening a loop lowers the digit
    of its line from `b + 2` to `b + 1`, rewinding lowers the loop's digit by
    one, and closing a loop zeroes it. */
module Progress {
  import opened ScanState
  import opened Values

  /** What the scan keeps true: the cursor is in range, loop start lines
      are strictly increasing and behind the cursor, loop indices and context
      values stay within `b`, and the nesting counter is zero except at the
      end of input. */
  ghost predicate Valid(n: nat, st: State, b: nat) {
    && st.cursor <= n
    && (forall k :: 0 <= k < |st.frames| ==> st.frames[k].start < st.cursor && st.frames[k].index <= b)
    && (forall j, k :: 0 <= j < k < |st.frames| ==> st.frames[j].start < st.frames[k].start)
    && (st.depth == 0 || st.cursor == n)
    && Bounded(st.ctx, b)
  }

  /** The digit of line `p`. */
  function Digit(frames: seq<Frame>, cursor: nat, b: nat, p: int): (d: nat)
    ensures d <= b + 2
  {
    if |frames| == 0 then (if p >= cursor then b + 2 else 0)
    else
      var f := frames[|frames| - 1];
      if f.start == p then (if f.index <= b then b + 1 - f.index else 0)
      else Digit(frames[..|frames| - 1], cursor, b, p)
  }

  function Digits(n: nat, frames: seq<Frame>, cursor: nat, b: nat): (ds: seq<nat>)
    ensures |ds| == n
    ensures forall p :: 0 <= p < n ==> ds[p] == Digit(frames, cursor, b, p)
  {
    seq(n, p => Digit(frames, cursor, b, p))
  }

  function Pow(k: nat, e: nat): nat {
    if e == 0 then 1 else k * Pow(k, e - 1)
  }

  /** The digits read as a number in base `k`, most significant first. */
  function Enc(ds: seq<nat>, k: nat): nat {
    if ds == [] then 0 else ds[0] * Pow(k, |ds| - 1) + Enc(ds[1..], k)
  }

  ghost function Measure(n: nat, st: State, b: nat): nat {
    Enc(Digits(n, st.frames, st.cursor, b), b + 3)
  }

  predicate Below(ds: seq<nat>, k: nat) {
    forall i :: 0 <= i < |ds| ==> ds[i] < k
  }

  lemma {:induction false} EncBound(ds: seq<nat>, k: nat)
    requires k >= 1 && Below(ds, k)
    ensures Enc(ds, k) < Pow(k, |ds|)
  {
    if ds != [] {
      var p := Pow(k, |ds| - 1);
      EncBound(ds[1..], k);
      assert ds[0] <= k - 1;
      assert ds[0] * p <= (k - 1) * p by {
        MulMono(ds[0], k - 1, p);
      }
      assert (k - 1) * p + p == k * p;
    }
  }

  lemma {:induction false} MulMono(a: nat, b: nat, c: nat)
    requires a <= b
    ensures a * c <= b * c
  {
  }

  /** A smaller leading digit outweighs any lower digits. */
  lemma {:induction false} LeadLess(a: nat, c: nat, x: nat, y: nat, q: nat)
    requires a < c && x < q
    ensures a * q + x < c * q + y
  {
    MulMono(a + 1, c, q);
    assert (a + 1) * q == a * q + q;
  }

  /** Equal leading digits leave the order to the lower digits. */
  lemma {:induction false} SameLead(a: nat, x: nat, y: nat, q: nat)
    requires x < y
    ensures a * q + x < a * q + y
  {
  }

  /** Lexicographic order on equally long digit strings is order on their values. */
  lemma {:induction false} LexLess(ds: seq<nat>, es: seq<nat>, k: nat, p: nat)
    requires k >= 1 && |ds| == |es| && Below(ds, k) && Below(es, k)
    requires p < |ds| && ds[..p] == es[..p] && ds[p] < es[p]
    ensures Enc(ds, k) < Enc(es, k)
  {
    var q := Pow(k, |ds| - 1);
    assert Enc(ds, k) == ds[0] * q + Enc(ds[1..], k);
    assert Enc(es, k) == es[0] * q + Enc(es[1..], k);
    if p == 0 {
      EncBound(ds[1..], k);
      LeadLess(ds[0], es[0], Enc(ds[1..], k), Enc(es[1..], k), q);
    } else {
      assert ds[0] == es[0] by {
        assert ds[..p][0] == es[..p][0];
      }
      assert ds[1..][..p - 1] == es[1..][..p - 1] by {
        assert ds[1..][..p - 1] == ds[..p][1..];
        assert es[1..][..p - 1] == es[..p][1..];
      }
      LexLess(ds[1..], es[1..], k, p - 1);
      SameLead(ds[0], Enc(ds[1..], k), Enc(es[1..], k), q);
    }
  }

  /** A line that starts no open loop carries the digit of its position alone. */
  lemma {:induction false} NoFrameAt(frames: seq<Frame>, cursor: nat, b: nat, p: nat)
    requires forall k :: 0 <= k < |frames| ==> frames[k].start != p
    ensures Digit(frames, cursor, b, p) == if p >= cursor then b + 2 else 0
    decreases |frames|
  {
    if |frames| > 0 {
      NoFrameAt(frames[..|frames| - 1], cursor, b, p);
    }
  }

  /** The digit of a line behind the cursor does not depend on where the cursor is. */
  lemma {:induction false} CursorFree(frames: seq<Frame>, c1: nat, c2: nat, b: nat, p: nat)
    requires p < c1 && p < c2
    ensures Digit(frames, c1, b, p) == Digit(frames, c2, b, p)
    decreases |frames|
  {
    if |frames| > 0 {
      CursorFree(frames[..|frames| - 1], c1, c2, b, p);
    }
  }

  lemma {:induction false} Decrease(n: nat, st: State, st': State, b: nat, p: nat)
    requires p < n
    requires forall q :: 0 <= q < p ==> Digit(st'.frames, st'.cursor, b, q) == Digit(st.frames, st.cursor, b, q)
    requires Digit(st'.frames, st'.cursor, b, p) < Digit(st.frames, st.cursor, b, p)
    ensures Measure(n, st', b) < Measure(n, st, b)
  {
    var ds := Digits(n, st'.frames, st'.cursor, b);
    var es := Digits(n, st.frames, st.cursor, b);
    assert ds[..p] == es[..p];
    LexLess(ds, es, b + 3, p);
  }

  /** Moving the cursor forward with the same loops open. */
  lemma {:induction false} Advance(n: nat, st: State, st': State, b: nat)
    requires Valid(n, st, b)
    requires st'.frames == st.frames && st.cursor < st'.cursor <= n
    ensures Measure(n, st', b) < Measure(n, st, b)
  {
    var c := st.cursor;
    forall q | 0 <= q < c
      ensures Digit(st'.frames, st'.cursor, b, q) == Digit(st.frames, st.cursor, b, q)
    {
      CursorFree(st.frames, st'.cursor, c, b, q);
    }
    NoFrameAt(st.frames, c, b, c);
    NoFrameAt(st.frames, st'.cursor, b, c);
    Decrease(n, st, st', b, c);
  }

  /** Opening a loop on the cursor's line and stepping past it. */
  lemma {:induction false} Push(n: nat, st: State, st': State, b: nat)
    requires Valid(n, st, b) && st.cursor < n
    requires |st'.frames| == |st.frames| + 1 && st'.frames[..|st.frames|] == st.frames
    requires st'.frames[|st.frames|].start == st.cursor && st'.frames[|st.frames|].index == 0
    requires st'.cursor == st.cursor + 1
    ensures Measure(n, st', b) < Measure(n, st, b)
  {
    var c := st.cursor;
    forall q | 0 <= q < c
      ensures Digit(st'.frames, st'.cursor, b, q) == Digit(st.frames, st.cursor, b, q)
    {
      CursorFree(st.frames, c + 1, c, b, q);
    }
    NoFrameAt(st.frames, c, b, c);
    Decrease(n, st, st', b, c);
  }

  /** Closing the innermost loop and stepping past the `endfor`. */
  lemma {:induction false} Pop(n: nat, st: State, st': State, b: nat)
    requires Valid(n, st, b) && st.cursor < n && |st.frames| > 0
    requires st'.frames == st.frames[..|st.frames| - 1] && st'.cursor == st.cursor + 1
    ensures Measure(n, st', b) < Measure(n, st, b)
  {
    var g := st'.frames;
    var s := st.frames[|st.frames| - 1].start;
    forall q | 0 <= q < s
      ensures Digit(st'.frames, st'.cursor, b, q) == Digit(st.frames, st.cursor, b, q)
    {
      CursorFree(g, st.cursor, st'.cursor, b, q);
    }
    NoFrameAt(g, st'.cursor, b, s);
    Decrease(n, st, st', b, s);
  }

  /** Moving the innermost loop to its next element and back to its `for` line. */
  lemma {:induction false} Rewind(n: nat, st: State, st': State, b: nat)
    requires Valid(n, st, b) && |st.frames| > 0
    requires var m := |st.frames|; var f := st.frames[m - 1];
      && |st'.frames| == m && st'.frames[..m - 1] == st.frames[..m - 1]
      && st'.frames[m - 1].start == f.start && st'.frames[m - 1].index == f.index + 1
      && st'.cursor == f.start + 1
    ensures Measure(n, st', b) < Measure(n, st, b)
  {
    var m := |st.frames|;
    var s := st.frames[m - 1].start;
    var g := st.frames[..m - 1];
    forall q | 0 <= q < s
      ensures Digit(st'.frames, st'.cursor, b, q) == Digit(st.frames, st.cursor, b, q)
    {
      assert st'.frames[..m - 1] == g;
      CursorFree(g, st.cursor, st'.cursor, b, q);
    }
    Decrease(n, st, st', b, s);
  }
}
