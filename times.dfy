/**
 * Timestamps and the service's clock. A timestamp is an opaque value; the clock
 * is an injected capability whose k-th reading is at(k), so every call to it is
 * visible in the model.
 */
module Times {

  datatype Time = Time(instant: int)

  class Clock {
    /** The reading the clock gives at its k-th call. */
    const at: nat -> Time
    /** How many times the clock has been called. */
    var calls: nat

    constructor (at: nat -> Time)
      ensures this.at == at && calls == 0
    {
      this.at := at;
      calls := 0;
    }

    method Now() returns (t: Time)
      modifies this
      ensures t == at(old(calls)) && calls == old(calls) + 1
    {
      t := at(calls);
      calls := calls + 1;
    }
  }
}
