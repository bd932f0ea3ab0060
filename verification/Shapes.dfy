/** The shape of the facts of a function. */
module Shapes {
  import opened IR
  import opened Sweep

  /** One fact for every instruction. */
  predicate Covers<F>(fn: Func, st: State<F>) {
    && |st.body| == |fn.blocks|
    && forall b :: 0 <= b < |fn.blocks| ==> |st.body[b]| == |fn.blocks[b]|
  }

  /** And one for every block boundary. */
  predicate Shape<F>(fn: Func, st: State<F>) {
    |st.entry| == |fn.blocks| && Covers(fn, st)
  }

  /** The same fact everywhere. */
  function Uniform<F>(fn: Func, x: F): (st: State<F>)
    ensures Shape(fn, st)
  {
    State(seq(|fn.blocks|, _ => x), seq(|fn.blocks|, b requires 0 <= b < |fn.blocks| => seq(|fn.blocks[b]|, _ => x)))
  }
}
