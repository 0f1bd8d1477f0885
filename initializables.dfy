/** flute/util/PredefinedInitializable.java, and the part of its base class
    util.Initializable that its callers rely on. */
module Initializables {
  import opened Base
  import opened Callbacks

  /** util.Initializable as `Lazy.lazy(Supplier)` uses it: `initializable()`
      holds nothing, and `suggest(s)` initialises the slot with `s.get()` the
      first time and returns the stored value. Initializable.java is not part
      of this model; this is the behaviour its call sites imply. */
  class Initializable<T> {
    var initialized: bool
    var value: Option<T>

    ghost predicate Valid()
      reads this
    {
      initialized <==> value.Some?
    }

    /** `Initializable.initializable()`. */
    constructor ()
      ensures Valid() && !initialized && value == None
    {
      initialized, value := false, None;
    }

    method Suggest(supplier: Supplier<T>) returns (r: T)
      requires Valid()
      modifies this, supplier
      ensures Valid() && initialized && value == Some(r)
      ensures old(initialized) ==> r == old(value).value && supplier.calls == old(supplier.calls)
      ensures !old(initialized) ==> r == supplier.fn() && supplier.calls == old(supplier.calls) + 1
    {
      if !initialized {
        initialized := true;
        var v := supplier.Get();
        value := Some(v);
      }
      r := value.value;
    }
  }

  /** A deferred slot: holds a supplier and runs it on the first `get()` only. */
  class PredefinedInitializable<T> {
    const initializationMethod: Supplier<T>
    var initialized: bool
    var value: Option<T>

    ghost predicate Valid()
      reads this
    {
      initialized <==> value.Some?
    }

    /** The supplier constructor: stores the supplier and passes null to the base. */
    constructor (initializationMethod: Supplier<T>)
      ensures Valid() && this.initializationMethod == initializationMethod
      ensures !initialized && value == None
    {
      this.initializationMethod := initializationMethod;
      initialized, value := false, None;
    }

    /** `get()`: the first call marks the slot initialised, then runs the
        supplier once and stores its result; later calls return that result. */
    method Get() returns (r: T)
      requires Valid()
      modifies this, initializationMethod
      ensures Valid() && initialized && value == Some(r)
      ensures old(initialized) ==> r == old(value).value
      ensures old(initialized) ==> initializationMethod.calls == old(initializationMethod.calls)
      ensures !old(initialized) ==> r == initializationMethod.fn()
      ensures !old(initialized) ==> initializationMethod.calls == old(initializationMethod.calls) + 1
    {
      if !initialized {
        initialized := true;
        var v := initializationMethod.Get();
        value := Some(v);
      }
      r := value.value;
    }
  }

  /** `PredefinedInitializable.initializable(supplier)`. */
  method InitializableBy<T>(supplier: Supplier<T>) returns (p: PredefinedInitializable<T>)
    ensures fresh(p) && p.Valid() && p.initializationMethod == supplier
    ensures !p.initialized && p.value == None
  {
    p := new PredefinedInitializable(supplier);
  }
}
