/** Lengths of time in milliseconds, the unit of every timestamp and
    interval the contraction screen handles. */
module Millis {
  const Second: int := 1000
  const Minute: int := 60 * Second
}
