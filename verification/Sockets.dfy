/** A descriptor one reads from: a byte or character stream that arrives in arbitrary pieces. */
module Sockets {

  class Source<T> {
    /** What the peer has sent, or will send before it closes, and has not been read. */
    var input: seq<T>
    /** How much the k-th read is willing to return, and whether it fails: chosen by the environment. */
    const piece: nat -> nat
    const fails: nat -> bool
    var calls: nat

    constructor (input: seq<T>, piece: nat -> nat, fails: nat -> bool)
      ensures this.input == input && this.piece == piece && this.fails == fails && calls == 0
    {
      this.input, this.piece, this.fails, calls := input, piece, fails, 0;
    }

    ghost predicate Reliable() {
      forall k: nat :: !fails(k)
    }

    /** read(2): at least one and at most `n` elements, in order; 0 at the end of the stream; -1 on error. */
    method Read(n: nat) returns (len: int, data: seq<T>)
      modifies this
      ensures -1 <= len <= n
      ensures len >= 0 ==> len <= |old(input)| && data == old(input)[..len] && input == old(input)[len..]
      ensures len == -1 ==> data == [] && input == old(input)
      ensures len == 0 ==> n == 0 || old(input) == []
      ensures Reliable() ==> len >= 0
    {
      calls := calls + 1;
      if fails(calls - 1) {
        return -1, [];
      }
      var most := if n < |input| then n else |input|;
      if most == 0 {
        return 0, [];
      }
      len := 1 + piece(calls - 1) % most;
      data := input[..len];
      input := input[len..];
    }
  }
}
