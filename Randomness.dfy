/**
 * Random choices. Every random pick of the engine asks a fresh generator for an integer in
 * [0, maxValue); the model takes the raw draws from an arbitrary stream and maps them into
 * that range the way the generator's contract does (a range with no room yields 0).
 */
module Randomness {
  /** The value a generator returns for a request of a number in [0, maxValue). */
  function NextInRange(draw: nat, maxValue: nat): (r: nat)
    ensures maxValue == 0 ==> r == 0
    ensures maxValue > 0 ==> r < maxValue
  {
    if maxValue == 0 then 0 else draw % maxValue
  }

  /** An arbitrary stream of raw draws; each request consumes the next one. */
  class RandomSource {
    const stream: nat -> nat
    var position: nat

    constructor (stream: nat -> nat)
      ensures this.stream == stream && position == 0
    {
      this.stream := stream;
      position := 0;
    }

    /** The next raw draw of the stream. */
    method Draw() returns (v: nat)
      modifies this
      ensures v == stream(old(position)) && position == old(position) + 1
    {
      v := stream(position);
      position := position + 1;
    }
  }
}
