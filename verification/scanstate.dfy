/** The state of one `build` call's scan (src/jinja2.ts:45-57). */
module ScanState {
  import opened Values

  /** One open `for` loop: the list and item names, the index of the `for`
      line the loop rewinds to, and the position in the list. */
  datatype Frame = Frame(listVar: string, itemVar: string, start: nat, index: nat)

  /** The cursor (index of the next line to dispatch), the loop-frame stack
      (innermost last), the shared `if` nesting counter, the context and the
      rendered lines so far. */
  datatype State = State(cursor: nat, frames: seq<Frame>, depth: nat, ctx: Context, out: seq<string>)
}
