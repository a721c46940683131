/** The output side of a float buffer: a growing sequence of values. */
module Buffers {

  class FloatBuffer {
    /** Every value put so far, oldest first. */
    var contents: seq<real>

    constructor ()
      ensures contents == []
    {
      contents := [];
    }

    /** Appends one value at the current position. */
    method Put(v: real)
      modifies this
      ensures contents == old(contents) + [v]
    {
      contents := contents + [v];
    }
  }
}
