/** Context values, the context map and the render errors of `build`. */
module Values {

  /** A context value: the string, number, boolean and (nested) list values a
      template is rendered against. A number carries an integer; nothing in
      the engine computes with it. */
  datatype Value = Str(s: string) | Num(n: int) | Bool(b: bool) | List(items: seq<Value>)

  /** The render context. A name absent from the map stands for JavaScript
      `undefined`. */
  type Context = map<string, Value>

  /** The ways a render fails. */
  datatype Error =
    | UndefinedVar(name: string)       // `{{ name }}` with `name` unbound
    | UndefinedLoopList(name: string)  // `for` over an unbound list variable
    | NotArray(name: string)           // `for` over a value that is not a list
    | UnmatchedEndfor(line: nat)       // `endfor` with no open loop
    | LoopListLost(name: string)       // `endfor` whose loop's list variable became unbound
    | EvalError(condition: string, message: string)  // the evaluator rejected a condition

  /** The largest length of `v` or of any list or string nested in it. */
  function Size(v: Value): nat
  {
    match v
    case Str(s) => |s|
    case List(items) => if |items| < MaxSize(items) then MaxSize(items) else |items|
    case _ => 0
  }

  function MaxSize(items: seq<Value>): nat
  {
    if items == [] then 0
    else
      var a := Size(items[0]);
      var b := MaxSize(items[1..]);
      if a < b then b else a
  }

  /** Every element of a list is no larger than the list. */
  lemma {:induction false} ElementSize(items: seq<Value>, k: nat)
    requires k < |items|
    ensures Size(items[k]) <= MaxSize(items)
  {
    if k > 0 {
      ElementSize(items[1..], k - 1);
      assert items[1..][k - 1] == items[k];
    }
  }

  /** No value in `ctx` is larger than `b`. */
  ghost predicate Bounded(ctx: Context, b: nat) {
    forall k :: k in ctx ==> Size(ctx[k]) <= b
  }

  /** A size bound for a whole context. */
  ghost function CtxBound(ctx: Context): (b: nat)
    ensures Bounded(ctx, b)
    decreases |ctx|
  {
    if |ctx| == 0 then 0
    else
      var k :| k in ctx;
      var rest := CtxBound(ctx - {k});
      var b := if Size(ctx[k]) < rest then rest else Size(ctx[k]);
      assert forall j :: j in ctx ==> j == k || j in ctx - {k};
      b
  }

  /** Binding a name to an element of a bounded list keeps the context bounded. */
  lemma {:induction false} BindElement(ctx: Context, name: string, items: seq<Value>, k: nat, item: string, b: nat)
    requires Bounded(ctx, b) && name in ctx && ctx[name] == List(items) && k < |items|
    ensures Bounded(ctx[item := items[k]], b)
  {
    ElementSize(items, k);
  }
}
