/** The functional interfaces the modelled code receives from its callers.
    Their side effects are unknown, so each one is a pure Dafny function plus a
    ghost record of every invocation, which is what the contracts speak about. */
module Callbacks {

  /** java.util.function.Consumer: only the arguments it received are observable. */
  class Consumer<T> {
    ghost var received: seq<T>

    constructor ()
      ensures received == []
    {
      received := [];
    }

    method Accept(x: T)
      modifies this
      ensures received == old(received) + [x]
    {
      received := received + [x];
    }
  }

  /** java.util.function.Function: a pure function whose calls are recorded. */
  class Function<T, R> {
    const fn: T -> R
    ghost var calls: seq<T>

    constructor (fn: T -> R)
      ensures this.fn == fn && calls == []
    {
      this.fn := fn;
      calls := [];
    }

    method Apply(x: T) returns (r: R)
      modifies this
      ensures r == fn(x)
      ensures calls == old(calls) + [x]
    {
      r := fn(x);
      calls := calls + [x];
    }
  }

  /** java.util.function.Supplier: a pure producer whose calls are counted. */
  class Supplier<T> {
    const fn: () -> T
    ghost var calls: nat

    constructor (fn: () -> T)
      ensures this.fn == fn && calls == 0
    {
      this.fn := fn;
      calls := 0;
    }

    method Get() returns (r: T)
      modifies this
      ensures r == fn()
      ensures calls == old(calls) + 1
    {
      r := fn();
      calls := calls + 1;
    }
  }
}
