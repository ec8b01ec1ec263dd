/**
 The bounded output log of a terminal or instance (internal/webterm/ringbuffer.go,
 internal/codeserver/ringbuffer.go).
 */
module RingBuffer {
  import opened Prelude

  // A byte is a character below 256; only equality of bytes matters here.
  type Bytes = seq<char>

  // Trimming before or after appending makes no difference.
  lemma TrimThenAppend(n: nat, a: Bytes, b: Bytes)
    ensures LastN(n, LastN(n, a) + b) == LastN(n, a + b)
  {
  }

  class Buffer {
    const capacity: nat
    var buf: Bytes
    ghost var history: Bytes

    ghost predicate Valid()
      reads this
    {
      buf == LastN(capacity, history)
    }

    constructor (capacity: nat)
      ensures Valid() && history == [] && this.capacity == capacity
    {
      this.capacity := capacity;
      buf, history := [], [];
    }

    method Write(p: Bytes)
      requires Valid()
      modifies this
      ensures Valid() && history == old(history) + p
    {
      TrimThenAppend(capacity, history, p);
      history := history + p;
      if |p| == 0 {
        return;
      }
      buf := buf + p;
      var excess := |buf| - capacity;
      if excess > 0 {
        buf := buf[excess..];
      }
    }

    method Snapshot() returns (out: Bytes)
      requires Valid()
      ensures out == LastN(capacity, history)
      ensures |history| <= capacity ==> out == history
      ensures |history| > capacity ==> out == history[|history| - capacity..]
    {
      out := buf;
    }
  }
}
