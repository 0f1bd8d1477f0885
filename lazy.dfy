/** util/Lazy.java: the three `lazy` wrappers, each with its own state. */
module Lazy {
  import opened Base
  import opened Callbacks
  import opened Initializables
  import opened Collections

  // ---------------------------------------------------------------------
  // lazy(Supplier)

  /** Every `get()` goes through `value.suggest(supplier)` on one Initializable. */
  class LazySupplier<T> {
    const supplier: Supplier<T>
    const value: Initializable<T>

    constructor (supplier: Supplier<T>)
      ensures this.supplier == supplier && fresh(value)
      ensures value.Valid() && !value.initialized
    {
      this.supplier := supplier;
      value := new Initializable();
    }

    method Get() returns (r: T)
      requires value.Valid()
      modifies value, supplier
      ensures value.Valid() && value.initialized && value.value == Some(r)
      ensures old(value.initialized) ==> r == old(value.value).value && supplier.calls == old(supplier.calls)
      ensures !old(value.initialized) ==> r == supplier.fn() && supplier.calls == old(supplier.calls) + 1
    {
      r := value.Suggest(supplier);
    }
  }

  // ---------------------------------------------------------------------
  // lazy(Consumer)

  /** The distinct elements of `ts`, each where it first occurs. */
  function Dedup<T(==)>(ts: seq<T>): seq<T>
  {
    if ts == [] then []
    else
      var init := ts[..|ts| - 1];
      if ts[|ts| - 1] in init then Dedup(init) else Dedup(init) + [ts[|ts| - 1]]
  }

  /** Dedup keeps every element once and nothing else. */
  lemma {:induction false} DedupDistinct<T>(ts: seq<T>)
    ensures forall x :: x in Dedup(ts) <==> x in ts
    ensures forall i, j :: 0 <= i < j < |Dedup(ts)| ==> Dedup(ts)[i] != Dedup(ts)[j]
  {
    if ts != [] {
      var init := ts[..|ts| - 1];
      assert ts == init + [ts[|ts| - 1]];
      DedupDistinct(init);
    }
  }

  /** Forwards to `consumer` only the arguments it has not accepted before. */
  class LazyConsumer<T(==)> {
    const consumer: Consumer<T>
    const seen: Seen<T>
    ghost var accepted: seq<T>    // every argument `accept` received
    ghost var forwarded: seq<T>   // what this wrapper passed on to `consumer`

    ghost predicate Valid()
      reads this, seen
    {
      && seen.elements == (set x | x in accepted)
      && forwarded == Dedup(accepted)
    }

    constructor (consumer: Consumer<T>)
      ensures this.consumer == consumer && fresh(seen)
      ensures Valid() && accepted == [] && forwarded == []
    {
      this.consumer := consumer;
      seen := new Seen();
      accepted, forwarded := [], [];
    }

    /** `accept(t)`: `seen.ifNotSeen(t, consumer::accept)`. */
    method Accept(t: T)
      requires Valid()
      modifies this, seen, consumer
      ensures Valid() && accepted == old(accepted) + [t]
      ensures consumer.received == old(consumer.received) + (if t in old(accepted) then [] else [t])
    {
      seen.IfNotSeen(t, consumer);
      if t !in accepted {
        forwarded := forwarded + [t];
      }
      accepted := accepted + [t];
      assert accepted[..|accepted| - 1] == old(accepted);
    }
  }

  // ---------------------------------------------------------------------
  // lazy(Function)

  /** The state of a memoising function wrapper: its FluentMap's flag and map. */
  datatype Memo<T, R> = Memo(invalid: bool, results: map<T, R>)

  /** One `apply(t)`, as written: `results.ifNotContainsKey(t).put(t, v).get(t)`,
      where `v` is `function.apply(t)`, evaluated on every call. */
  function MemoStep<T(==), R>(m: Memo<T, R>, t: T, v: R): (r: (Memo<T, R>, Option<R>))
    ensures t in m.results ==> r == (Memo(true, m.results), Some(m.results[t]))
    ensures t !in m.results && !m.invalid ==> r == (Memo(false, m.results[t := v]), Some(v))
    ensures t !in m.results && m.invalid ==> r == (m, None)
  {
    var invalid := m.invalid || t in m.results;
    var results := if invalid then m.results else m.results[t := v];
    (Memo(invalid, results), if t in results then Some(results[t]) else None)
  }

  /** A run of `apply` calls on one wrapper: the final state and every answer. */
  function MemoRun<T(==), R>(m: Memo<T, R>, ts: seq<T>, fn: T -> R): (Memo<T, R>, seq<Option<R>>)
    decreases |ts|
  {
    if ts == [] then (m, [])
    else
      var step := MemoStep(m, ts[0], fn(ts[0]));
      var rest := MemoRun(step.0, ts[1..], fn);
      (rest.0, [step.1] + rest.1)
  }

  /** Once the wrapper's map is invalid it stays so: nothing is ever stored
      again, and every later `apply` answers with what was stored before. */
  lemma {:induction false} StickyInvalidation<T, R>(m: Memo<T, R>, ts: seq<T>, fn: T -> R)
    requires m.invalid
    ensures MemoRun(m, ts, fn).0 == m
    ensures |MemoRun(m, ts, fn).1| == |ts|
    ensures forall i :: 0 <= i < |ts| ==>
      MemoRun(m, ts, fn).1[i] == (if ts[i] in m.results then Some(m.results[ts[i]]) else None)
    decreases |ts|
  {
    if ts != [] {
      StickyInvalidation(m, ts[1..], fn);
      var rs := MemoRun(m, ts, fn).1;
      forall i | 0 <= i < |ts|
        ensures rs[i] == (if ts[i] in m.results then Some(m.results[ts[i]]) else None)
      {
        if i > 0 {
          assert rs[i] == MemoRun(m, ts[1..], fn).1[i - 1];
        }
      }
    }
  }

  /** The counterexample: after a repeated argument `a`, a new argument `b`
      gets null instead of `fn(b)`. */
  lemma NewKeyLostAfterRepeat<T, R>(a: T, b: T, fn: T -> R)
    requires a != b
    ensures MemoRun(Memo(false, map[]), [a, a, b], fn).1 == [Some(fn(a)), Some(fn(a)), None]
  {
    var ts := [a, a, b];
    assert ts[0] == a && ts[1..] == [a, b];
    var step1 := MemoStep(Memo(false, map[]), a, fn(a));
    assert step1.1 == Some(fn(a)) && step1.0.results == map[a := fn(a)];
    var step2 := MemoStep(step1.0, a, fn(a));
    assert step2.1 == Some(fn(a)) && step2.0.invalid && b !in step2.0.results;
    StickyInvalidation(step2.0, [b], fn);
    var rest := MemoRun(step2.0, [b], fn).1;
    assert rest == [None];
    assert MemoRun(step1.0, [a, b], fn).1 == [step2.1] + rest;
  }

  /** `apply(t)` as evidently intended: answer the stored value, or compute,
      store and answer `fn(t)`. */
  function MemoStepFixed<T(==), R>(results: map<T, R>, t: T, fn: T -> R): (map<T, R>, R)
  {
    if t in results then (results, results[t]) else (results[t := fn(t)], fn(t))
  }

  function MemoRunFixed<T(==), R>(results: map<T, R>, ts: seq<T>, fn: T -> R): (map<T, R>, seq<R>)
    decreases |ts|
  {
    if ts == [] then (results, [])
    else
      var step := MemoStepFixed(results, ts[0], fn);
      var rest := MemoRunFixed(step.0, ts[1..], fn);
      (rest.0, [step.1] + rest.1)
  }

  /** The corrected memoiser answers `fn(t)` for every call of any run, and
      its map only ever holds `fn`'s own results. */
  lemma {:induction false} MemoRunFixedAgrees<T, R>(results: map<T, R>, ts: seq<T>, fn: T -> R)
    requires forall k :: k in results ==> results[k] == fn(k)
    ensures forall k :: k in MemoRunFixed(results, ts, fn).0 ==> MemoRunFixed(results, ts, fn).0[k] == fn(k)
    ensures |MemoRunFixed(results, ts, fn).1| == |ts|
    ensures forall i :: 0 <= i < |ts| ==> MemoRunFixed(results, ts, fn).1[i] == fn(ts[i])
    decreases |ts|
  {
    if ts != [] {
      var results1 := MemoStepFixed(results, ts[0], fn).0;
      MemoRunFixedAgrees(results1, ts[1..], fn);
      var rs := MemoRunFixed(results, ts, fn).1;
      forall i | 0 <= i < |ts|
        ensures rs[i] == fn(ts[i])
      {
        if i > 0 {
          assert rs[i] == MemoRunFixed(results1, ts[1..], fn).1[i - 1];
        }
      }
    }
  }

  /** Memoises `fun` through a FluentMap, as written. */
  class LazyFunction<T(==), R(==)> {
    const fun: Function<T, R>
    const results: FluentMap<T, R>

    ghost function State(): Memo<T, R>
      reads results
    {
      Memo(results.invalid, results.contents)
    }

    constructor (fun: Function<T, R>)
      ensures this.fun == fun && fresh(results)
      ensures State() == Memo(false, map[])
    {
      this.fun := fun;
      results := new FluentMap();
    }

    /** `apply(t)`: `fun` (the source's `function`) runs on every call; the answer and the new
        state are one MemoStep. */
    method Apply(t: T) returns (r: Option<R>)
      modifies results, fun
      ensures fun.calls == old(fun.calls) + [t]
      ensures (State(), r) == MemoStep(old(State()), t, fun.fn(t))
    {
      var _ := results.IfNotContainsKey(t);
      var v := fun.Apply(t);
      var _ := results.Put(t, v);
      r := results.Get(t);
    }
  }
}
