/** util/IterableWrapper.java: a composite lazy sequence built from an optional
    eager `first` element and a lazily created, append-only list of children
    (`posters`), and the cursor its `iterator()` returns. */
module Iterables {
  import opened Base
  import opened Callbacks
  import opened Traversal

  /** An IterableWrapper. `silent` marks the anonymous subclass built by
      `nothing`, whose `iterator()` is always empty. The deferred `posters` slot
      is kept as its flag and its list: its supplier makes an empty list, so
      initialising it only sets `postersInit`. */
  class IterableWrapper<T> {
    const silent: bool
    const first: Option<T>
    var postersInit: bool
    var posters: seq<Child<T>>

    ghost predicate Valid()
      reads this
    {
      !postersInit ==> posters == []
    }

    /** What this wrapper's cursors yield. */
    function Elements(): seq<T>
      reads this
    {
      if silent then [] else Traversal.Elements(first, posters)
    }

    /** `new IterableWrapper<>()`: no `first`, `posters` not yet created. */
    constructor ()
      ensures Valid() && !silent && first == None
      ensures !postersInit && posters == []
    {
      silent, first := false, None;
      postersInit, posters := false, [];
    }

    /** A fresh wrapper whose `first` is `x`. */
    constructor WithFirst(x: T)
      ensures Valid() && !silent && first == Some(x)
      ensures !postersInit && posters == []
    {
      silent, first := false, Some(x);
      postersInit, posters := false, [];
    }

    /** The anonymous subclass `nothing` returns. */
    constructor Silent()
      ensures Valid() && silent && first == None
      ensures !postersInit && posters == []
    {
      silent, first := true, None;
      postersInit, posters := false, [];
    }

    /** `then(Iterable<T>)`: append one child. */
    method Then(child: Child<T>) returns (r: IterableWrapper<T>)
      requires Valid()
      modifies this
      ensures Valid() && r == this
      ensures postersInit && posters == old(posters) + [child]
    {
      postersInit := true;
      posters := posters + [child];
      r := this;
    }

    /** `then(Iterable<T>...)` and `then(Collection<Iterable<T>>)`: append the
        children in the given order. */
    method ThenAll(children: seq<Child<T>>) returns (r: IterableWrapper<T>)
      requires Valid()
      modifies this
      ensures Valid() && r == this
      ensures postersInit && posters == old(posters) + children
    {
      postersInit := true;
      posters := posters + children;
      r := this;
    }

    /** `then(T t)`: append `iterable(t)`. `posters.get()` runs before
        `iterable(t)` rejects a null `t`, so the list is created either way. */
    method ThenValue(t: Option<T>) returns (r: Result<IterableWrapper<T>>)
      requires Valid()
      modifies this
      ensures Valid() && postersInit
      ensures t.None? ==> r == Err(NullPointer) && posters == old(posters)
      ensures t.Some? ==> r == Ok(this) && posters == old(posters) + [[t.value]]
    {
      postersInit := true;
      var single := Of(t);
      if single.Err? {
        return Err(single.error);
      }
      posters := posters + [single.value.Elements()];
      r := Ok(this);
    }

    /** `iterator()`: a cursor with its own state, positioned before `first`. */
    method Iterator() returns (c: Cursor<T>)
      requires Valid()
      ensures fresh(c) && c.owner == this && c.Valid()
      ensures c.State() == Fresh(first)
      ensures c.Remaining() == Elements()
    {
      c := new Cursor(this);
    }

    /** `map(function)`: the cursor over this wrapper is created once, now, and
        every cursor of the mapped wrapper shares it. */
    method Map<S>(f: Function<Option<T>, S>) returns (m: MappedWrapper<T, S>)
      requires Valid()
      ensures fresh(m) && fresh(m.original) && m.f == f
      ensures m.original.owner == this && m.original.Valid()
      ensures m.original.State() == Fresh(first)
    {
      var original := Iterator();
      m := new MappedWrapper(original, f);
    }
  }

  /** The cursor `iterator()` returns: `onFirst`, the lazily obtained iterator
      over `posters` and `currentIterator`, over the wrapper that made it. */
  class Cursor<T> {
    const owner: IterableWrapper<T>
    const silent: bool
    var onFirst: bool
    var posterIter: Option<PosterIter<T>>
    var current: Option<ChildIter<T>>

    ghost function State(): CursorState<T>
      reads this
    {
      CursorState(onFirst, posterIter, current)
    }

    ghost predicate Valid()
      reads this, owner
    {
      && owner.Valid()
      && silent == owner.silent
      && Consistent(State(), owner.first, owner.postersInit, owner.posters)
    }

    /** The elements this cursor has still to yield. */
    ghost function Remaining(): seq<T>
      reads this, owner
      requires Valid()
    {
      if silent then [] else Traversal.Remaining(State(), owner.first, owner.posters)
    }

    ghost predicate Positioned()
      reads this
    {
      !silent && Traversal.Positioned(State())
    }

    /** Past `first`, `hasNext` will throw: see Traversal.Doomed. */
    ghost predicate Doomed()
      reads this, owner
      requires Valid()
    {
      !silent && Traversal.Doomed(State(), owner.postersInit, owner.posters)
    }

    /** What `hasNext` returns and the state it leaves. */
    ghost function HasNextOutcome(): (Result<bool>, CursorState<T>)
      reads this, owner
      requires Valid()
    {
      if silent then (Ok(false), State())
      else HasNextStep(State(), owner.first, owner.postersInit, owner.posters)
    }

    /** What `next` returns (None is the null of a `nothing` cursor) and the state it leaves. */
    ghost function NextOutcome(): (Result<Option<T>>, CursorState<T>)
      reads this, owner
      requires Valid()
    {
      if silent then (Ok(None), State())
      else
        var (r, s) := NextStep(State(), owner.first);
        (if r.Ok? then Ok(Some(r.value)) else Err(r.error), s)
    }

    constructor (owner: IterableWrapper<T>)
      requires owner.Valid()
      ensures this.owner == owner && Valid()
      ensures State() == Fresh(owner.first)
    {
      this.owner := owner;
      silent := owner.silent;
      onFirst := owner.first.Some?;
      posterIter, current := None, None;
    }

    method HasNext() returns (r: Result<bool>)
      requires Valid()
      modifies this
      ensures Valid()
      ensures r == old(HasNextOutcome()).0 && State() == old(HasNextOutcome()).1
      ensures Remaining() == old(Remaining())
      ensures r.Ok? ==> (r.value <==> Remaining() != [])
      ensures !silent && old(onFirst) ==> r == Ok(true)
      ensures r == Ok(true) ==> Positioned()
      ensures r.Err? <==> old(!onFirst && Doomed())
      ensures r.Err? ==> r.error == NullPointer
      ensures Doomed() <==> old(Doomed())
      ensures !owner.postersInit ==> r == Ok(!silent && old(onFirst)) && State() == old(State())
    {
      ghost var s0 := State();
      if silent {
        return Ok(false);
      }
      if onFirst || !owner.postersInit {
        r := Ok(onFirst);
      } else {
        if Exhausted(current) && posterIter.None? {
          posterIter := Some(PosterIter(owner.posters, 0));
        }
        ghost var s1 := State();
        // fluentFor: switch children while the current one is absent or drained
        while Exhausted(current) && posterIter.value.HasNext()
          invariant posterIter.Some? && posterIter.value.Valid()
          invariant Advance(State()) == Advance(s1)
          decreases |posterIter.value.list| - posterIter.value.taken
        {
          var p := posterIter.value;
          current := Some(ChildIter(p.list[p.taken], 0));
          posterIter := Some(PosterIter(p.list, p.taken + 1));
        }
        r := if current.None? then Err(NullPointer) else Ok(current.value.HasNext());
      }
      assert (r, State()) == HasNextStep(s0, owner.first, owner.postersInit, owner.posters);
      HasNextStepSound(s0, owner.first, owner.postersInit, owner.posters);
    }

    method Next() returns (r: Result<Option<T>>)
      requires Valid()
      modifies this
      ensures Valid()
      ensures r == old(NextOutcome()).0 && State() == old(NextOutcome()).1
      ensures silent ==> r == Ok(None)
      ensures r.Ok? && !silent ==> r.value.Some? && old(Remaining()) == [r.value.value] + Remaining()
      ensures r.Err? ==> Remaining() == old(Remaining())
      ensures old(Positioned()) ==> r.Ok?
      ensures Doomed() <==> old(Doomed())
    {
      ghost var s0 := State();
      if silent {
        return Ok(None);
      }
      if onFirst {
        onFirst := false;
        r := Ok(Some(owner.first.value));
      } else if current.None? {
        // validate(i -> i == null || !i.get().hasNext()) reads the null current iterator
        r := Err(NullPointer);
      } else {
        var available := true;
        if !current.value.HasNext() {
          var p := posterIter.value;
          if p.HasNext() {
            current := Some(ChildIter(p.list[p.taken], 0));
            posterIter := Some(PosterIter(p.list, p.taken + 1));
          } else {
            available := false;
          }
        }
        var c := current.value;
        if !available || !c.HasNext() {
          r := Err(NoSuchElement);
        } else {
          current := Some(c.(pos := c.pos + 1));
          r := Ok(Some(c.items[c.pos]));
        }
      }
      ghost var step := NextStep(s0, owner.first);
      assert State() == step.1;
      assert r == if step.0.Ok? then Ok(Some(step.0.value)) else Err(step.0.error);
      NextStepSound(s0, owner.first, owner.postersInit, owner.posters);
      NextStepThrows(s0, owner.first, owner.postersInit, owner.posters);
    }
  }

  /** The anonymous wrapper `map` returns: every cursor it hands out delegates
      to the one `original` cursor and applies `f` to what it returns. */
  class MappedWrapper<T, S> {
    const original: Cursor<T>
    const f: Function<Option<T>, S>

    constructor (original: Cursor<T>, f: Function<Option<T>, S>)
      ensures this.original == original && this.f == f
    {
      this.original := original;
      this.f := f;
    }

    method Iterator() returns (c: MappedCursor<T, S>)
      ensures fresh(c) && c.original == original && c.f == f
    {
      c := new MappedCursor(original, f);
    }
  }

  class MappedCursor<T, S> {
    const original: Cursor<T>
    const f: Function<Option<T>, S>

    constructor (original: Cursor<T>, f: Function<Option<T>, S>)
      ensures this.original == original && this.f == f
    {
      this.original := original;
      this.f := f;
    }

    /** `original.hasNext()`. */
    method HasNext() returns (r: Result<bool>)
      requires original.Valid()
      modifies original
      ensures original.Valid()
      ensures (r, original.State()) == old(original.HasNextOutcome())
    {
      r := original.HasNext();
    }

    /** `function.apply(original.next())`: `f` runs once per element, on what
        the shared cursor returned. */
    method Next() returns (r: Result<S>)
      requires original.Valid()
      modifies original, f
      ensures original.Valid()
      ensures original.State() == old(original.NextOutcome()).1
      ensures var x := old(original.NextOutcome()).0;
        && (x.Ok? ==> r == Ok(f.fn(x.value)) && f.calls == old(f.calls) + [x.value])
        && (x.Err? ==> r == Err(x.error) && f.calls == old(f.calls))
    {
      var x := original.Next();
      if x.Err? {
        return Err(x.error);
      }
      var y := f.Apply(x.value);
      r := Ok(y);
    }
  }

  /** `iterable(first)`: a wrapper whose `first` is `x`; null is rejected. */
  method Of<T>(x: Option<T>) returns (r: Result<IterableWrapper<T>>)
    ensures x.None? <==> r.Err?
    ensures r.Err? ==> r.error == NullPointer
    ensures r.Ok? ==> fresh(r.value) && r.value.Valid() && !r.value.silent
    ensures r.Ok? ==> r.value.first == x && !r.value.postersInit && r.value.posters == []
    ensures r.Ok? ==> r.value.Elements() == [x.value]
  {
    if x.None? {
      return Err(NullPointer);
    }
    var w := new IterableWrapper.WithFirst(x.value);
    r := Ok(w);
  }

  /** `nothing(_)`: a wrapper whose cursors never yield, whatever is appended. */
  method Nothing<T>() returns (w: IterableWrapper<T>)
    ensures fresh(w) && w.Valid() && w.silent && w.first == None
    ensures !w.postersInit && w.posters == []
    ensures w.Elements() == []
  {
    w := new IterableWrapper.Silent();
  }

  /** `get(iterable)`, as written: `nothing(null).then(iterable)`, whose cursors
      never reach the appended child. */
  method Get<T>(child: Child<T>) returns (w: IterableWrapper<T>)
    ensures fresh(w) && w.Valid() && w.silent
    ensures w.postersInit && w.posters == [child]
    ensures w.Elements() == []
  {
    w := Nothing();
    w := w.Then(child);
  }

  /** `get(iterable)` as evidently intended: a plain wrapper over the child. */
  method Wrap<T>(child: Child<T>) returns (w: IterableWrapper<T>)
    ensures fresh(w) && w.Valid() && !w.silent
    ensures w.postersInit && w.posters == [child]
    ensures w.Elements() == child
  {
    w := new IterableWrapper();
    w := w.Then(child);
    assert Flatten([child]) == child by { assert [child][1..] == []; }
  }

  /** `combine(Iterable<T>...)` and `combine(Collection<Iterable<T>>)`: no
      `first`, and `posters` is exactly the given children, in order. */
  method Combine<T>(children: seq<Child<T>>) returns (w: IterableWrapper<T>)
    ensures fresh(w) && w.Valid() && !w.silent && w.first == None
    ensures w.postersInit && w.posters == children
    ensures w.Elements() == Flatten(children)
  {
    w := new IterableWrapper();
    w := w.ThenAll(children);
  }

  /** `recursive(v)`: `iterable(v)` followed by one child that yields nothing:
      for an Iterable `v` the child is `get(v).map(...)`, whose shared cursor is
      a `nothing` cursor, and otherwise it is `nothing(null)`. */
  method Recursive<T>(v: Option<T>) returns (r: Result<IterableWrapper<T>>)
    ensures v.None? <==> r.Err?
    ensures r.Err? ==> r.error == NullPointer
    ensures r.Ok? ==> fresh(r.value) && r.value.Valid() && !r.value.silent && r.value.first == v
    ensures r.Ok? ==> r.value.postersInit && r.value.posters == [[]]
    ensures r.Ok? ==> r.value.Elements() == [v.value]
  {
    var w := Of(v);
    if w.Err? {
      return w;
    }
    var empty: Child<T> := [];
    var _ := w.value.Then(empty);
    assert [empty][1..] == [];
    r := w;
  }
}
