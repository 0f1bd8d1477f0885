/** util/fluent/FluentWrapper.java: an object plus a validity flag that gates
    the actions run on it. */
module FluentWrappers {
  import opened Base
  import opened Callbacks

  class FluentWrapper<O> {
    const inner: O
    var invalid: bool

    /** `origin()`: the wrapped object, whether or not the wrapper is valid. */
    function Origin(): (o: O)
      ensures o == inner
    {
      inner
    }

    /** `new FluentWrapper(object)`: valid, wrapping `object`. */
    constructor (obj: O)
      ensures Origin() == obj && !invalid
    {
      inner := obj;
      invalid := false;
    }

    /** `d0(action)`: runs `action` on the wrapped object only while valid. */
    method D0(action: Consumer<O>) returns (r: FluentWrapper<O>)
      modifies action
      ensures r == this && invalid == old(invalid)
      ensures action.received == old(action.received) + (if invalid then [] else [Origin()])
    {
      if !invalid {
        action.Accept(inner);
      }
      r := this;
    }

    /** `lane(action)`: a wrapper of `action(inner)` that is valid iff this one
        is; an invalid wrapper of null, without running `action`, otherwise. */
    method Lane<T>(action: Function<O, T>) returns (r: FluentWrapper<Option<T>>)
      modifies action
      ensures fresh(r) && r.invalid == invalid
      ensures !invalid ==> r.Origin() == Some(action.fn(inner)) && action.calls == old(action.calls) + [inner]
      ensures invalid ==> r.Origin() == None && action.calls == old(action.calls)
    {
      if !invalid {
        var t := action.Apply(inner);
        r := new FluentWrapper(Some(t));
        return;
      }
      r := new FluentWrapper(None);
      r.invalid := true;
    }

    /** `validate(predicate)`: an invalid wrapper stays invalid; a valid one
        becomes invalid exactly when `test` rejects the wrapped object. */
    method Validate(test: O -> bool) returns (r: FluentWrapper<O>)
      modifies this
      ensures r == this
      ensures invalid == (old(invalid) || !test(Origin()))
    {
      if !invalid && !test(inner) {
        invalid := true;
      }
      r := this;
    }

    /** `elze()`: flips validity, so two calls restore it. */
    method Elze() returns (r: FluentWrapper<O>)
      modifies this
      ensures r == this && invalid == !old(invalid)
    {
      invalid := !invalid;
      r := this;
    }
  }

  /** `fluent(object)`: a valid wrapper of `object`. */
  method Fluent<O>(obj: O) returns (w: FluentWrapper<O>)
    ensures fresh(w) && !w.invalid && w.Origin() == obj
  {
    w := new FluentWrapper(obj);
  }

  /** `fluent(object, action)`: runs `action` once on `object` and returns `object`. */
  method FluentAccept<O>(obj: O, action: Consumer<O>) returns (r: O)
    modifies action
    ensures r == obj
    ensures action.received == old(action.received) + [obj]
  {
    action.Accept(obj);
    r := obj;
  }

  /** `silent(object)`: an invalid wrapper of `object`. */
  method Silent<O>(obj: O) returns (w: FluentWrapper<O>)
    ensures fresh(w) && w.invalid && w.Origin() == obj
  {
    w := new FluentWrapper(obj);
    w.invalid := true;
  }

  /** `fluentIf(condition)`: a wrapper of null (Void's only value, here `()`)
      that is valid iff `condition`. */
  method FluentIf(condition: bool) returns (w: FluentWrapper<()>)
    ensures fresh(w) && w.invalid == !condition
  {
    if condition {
      w := Fluent(());
    } else {
      w := Silent(());
    }
  }
}
