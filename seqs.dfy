/** Facts about sequences shared by the order-keeping filters of the model. */
module Seqs {

  /**
   * The induction step of a filter over a concatenation, stated apart from
   * any filter: when the whole is the head's result before the rest, and the
   * rest splits into `x` and `y`, the whole is `head + x` before `y`.
   */
  lemma FilterStep<T>(whole: seq<T>, left: seq<T>, head: seq<T>, rest: seq<T>, x: seq<T>, y: seq<T>)
    requires whole == head + rest && left == head + x && rest == x + y
    ensures whole == left + y
  {
  }
}
