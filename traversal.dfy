/** The composite sequence of util/IterableWrapper.java as values: what a
    wrapper yields, and the three-field cursor its `iterator()` returns, one
    `hasNext`/`next` call at a time. The classes in module Iterables run these
    steps in place and are proved equal to them. */
module Traversal {
  import opened Base

  /** A child iterable ("poster"), represented by the elements its iterator yields. */
  type Child<T> = seq<T>

  /** The children's elements, child after child, in insertion order. */
  function Flatten<T>(children: seq<Child<T>>): seq<T>
  {
    if children == [] then [] else children[0] + Flatten(children[1..])
  }

  /** The eager `first` element, when there is one. */
  function FirstPart<T>(first: Option<T>): seq<T>
  {
    if first.Some? then [first.value] else []
  }

  /** What a wrapper's own cursor yields: `first`, then every poster in order. */
  function Elements<T>(first: Option<T>, posters: seq<Child<T>>): seq<T>
  {
    FirstPart(first) + Flatten(posters)
  }

  /** What a for-each loop over a (non-`nothing`) wrapper ends with: its elements,
      or the NullPointerException that `hasNext` throws once `first` is spent while
      `posters` is initialised but empty. */
  function ForEachOutcome<T>(first: Option<T>, postersInit: bool, posters: seq<Child<T>>): Result<seq<T>>
  {
    if postersInit && posters == [] then Err(NullPointer) else Ok(Elements(first, posters))
  }

  /** The iterator of one child: its elements and how many were handed out. */
  datatype ChildIter<T> = ChildIter(items: seq<T>, pos: nat) {
    predicate Valid() { pos <= |items| }
    predicate HasNext() { pos < |items| }
  }

  /** The iterator over `posters`: the list it walks and how many children it returned. */
  datatype PosterIter<T> = PosterIter(list: seq<Child<T>>, taken: nat) {
    predicate Valid() { taken <= |list| }
    predicate HasNext() { taken < |list| }
  }

  /** The cursor's three fields: `onFirst`, the lazily obtained poster iterator
      (None until it is first needed) and `currentIterator` (None is null). */
  datatype CursorState<T> = CursorState(onFirst: bool, posterIter: Option<PosterIter<T>>, current: Option<ChildIter<T>>)

  /** A new cursor: on `first` exactly when there is one, nothing else obtained yet. */
  function Fresh<T>(first: Option<T>): CursorState<T>
  {
    CursorState(first.Some?, None, None)
  }

  /** The first half of the fluentFor condition: no current child, or it is drained. */
  predicate Exhausted<T>(current: Option<ChildIter<T>>)
  {
    current.None? || !current.value.HasNext()
  }

  /** The invariant every reachable cursor state keeps. */
  predicate Wf<T>(s: CursorState<T>, first: Option<T>)
  {
    && (s.onFirst ==> first.Some?)
    && (s.current.Some? ==> s.posterIter.Some? && s.current.value.Valid())
    && (s.posterIter.Some? ==> s.posterIter.value.Valid())
  }

  /** Wf, plus what the owner's deferred `posters` implies: while it is not
      initialised it is empty and no cursor has an iterator over it. */
  predicate Consistent<T>(s: CursorState<T>, first: Option<T>, postersInit: bool, posters: seq<Child<T>>)
  {
    Wf(s, first) && (!postersInit ==> posters == [] && s.posterIter.None?)
  }

  /** The children the cursor has not started yet. */
  function Pending<T>(s: CursorState<T>, posters: seq<Child<T>>): seq<Child<T>>
    requires s.posterIter.Some? ==> s.posterIter.value.Valid()
  {
    if s.posterIter.Some? then s.posterIter.value.list[s.posterIter.value.taken..] else posters
  }

  /** The elements the cursor has still to yield. */
  function Remaining<T>(s: CursorState<T>, first: Option<T>, posters: seq<Child<T>>): seq<T>
    requires Wf(s, first)
  {
    (if s.onFirst then [first.value] else [])
    + (if s.current.Some? then s.current.value.items[s.current.value.pos..] else [])
    + Flatten(Pending(s, posters))
  }

  /** `next` can answer without switching child: `first` is pending or the current child has more. */
  predicate Positioned<T>(s: CursorState<T>)
  {
    s.onFirst || (s.current.Some? && s.current.value.HasNext())
  }

  /** No current child and no child left, with `posters` initialised: the state in
      which `hasNext` dereferences a null `currentIterator` once `first` is spent. */
  predicate Doomed<T>(s: CursorState<T>, postersInit: bool, posters: seq<Child<T>>)
    requires s.posterIter.Some? ==> s.posterIter.value.Valid()
  {
    postersInit && s.current.None? && Pending(s, posters) == []
  }

  /** The fluentFor loop of `hasNext`: while the current child is absent or
      drained and another child remains, switch to that child's fresh iterator. */
  function Advance<T>(s: CursorState<T>): CursorState<T>
    requires s.posterIter.Some? && s.posterIter.value.Valid()
    decreases |s.posterIter.value.list| - s.posterIter.value.taken
  {
    if Exhausted(s.current) && s.posterIter.value.HasNext() then Advance(SwitchChild(s)) else s
  }

  /** Take the next child from the poster iterator and make its fresh iterator current. */
  function SwitchChild<T>(s: CursorState<T>): CursorState<T>
    requires s.posterIter.Some? && s.posterIter.value.HasNext()
  {
    var p := s.posterIter.value;
    CursorState(s.onFirst, Some(PosterIter(p.list, p.taken + 1)), Some(ChildIter(p.list[p.taken], 0)))
  }

  /** One `hasNext` call, as written: `onFirst`, or (only when `posters` is
      initialised) advance and ask the current child, which is null when no
      child was ever found. */
  function HasNextStep<T>(s: CursorState<T>, first: Option<T>, postersInit: bool, posters: seq<Child<T>>): (Result<bool>, CursorState<T>)
    requires Consistent(s, first, postersInit, posters)
  {
    if s.onFirst then (Ok(true), s)
    else if !postersInit then (Ok(false), s)
    else
      var s1 := if Exhausted(s.current) && s.posterIter.None? then s.(posterIter := Some(PosterIter(posters, 0))) else s;
      var s2 := Advance(s1);
      if s2.current.None? then (Err(NullPointer), s2) else (Ok(s2.current.value.HasNext()), s2)
  }

  /** Hand out the current child's next element. */
  function Pull<T>(s: CursorState<T>): (Result<T>, CursorState<T>)
    requires s.current.Some? && s.current.value.HasNext()
  {
    var c := s.current.value;
    (Ok(c.items[c.pos]), s.(current := Some(c.(pos := c.pos + 1))))
  }

  /** One `next` call, as written: `first` when on it; otherwise switch at most
      one child when the current one is drained, then ask the current child. */
  function NextStep<T>(s: CursorState<T>, first: Option<T>): (Result<T>, CursorState<T>)
    requires Wf(s, first)
  {
    if s.onFirst then (Ok(first.value), s.(onFirst := false))
    else if s.current.None? then (Err(NullPointer), s)
    else if s.current.value.HasNext() then Pull(s)
    else
      if !s.posterIter.value.HasNext() then (Err(NoSuchElement), s)
      else
        var s1 := SwitchChild(s);
        if s1.current.value.HasNext() then Pull(s1) else (Err(NoSuchElement), s1)
  }

  /** `hasNext` as evidently intended: the same walk, answering false where the
      source dereferences the null current iterator. */
  function HasNextStepFixed<T>(s: CursorState<T>, first: Option<T>, postersInit: bool, posters: seq<Child<T>>): (Result<bool>, CursorState<T>)
    requires Consistent(s, first, postersInit, posters)
  {
    var (r, s') := HasNextStep(s, first, postersInit, posters);
    (if r.Err? then Ok(false) else r, s')
  }

  // ---------------------------------------------------------------------
  // Lemmas

  /** Concatenation distributes over appending children. */
  lemma {:induction false} FlattenAppend<T>(a: seq<Child<T>>, b: seq<Child<T>>)
    ensures Flatten(a + b) == Flatten(a) + Flatten(b)
  {
    if a == [] {
      assert a + b == b;
    } else {
      assert (a + b)[0] == a[0];
      assert (a + b)[1..] == a[1..] + b;
      FlattenAppend(a[1..], b);
    }
  }

  lemma FlattenAt<T>(list: seq<Child<T>>, i: nat)
    requires i < |list|
    ensures Flatten(list[i..]) == list[i] + Flatten(list[i + 1..])
  {
    assert list[i..][0] == list[i];
    assert list[i..][1..] == list[i + 1..];
  }

  /** Appending children (`then`) extends what the wrapper yields by exactly their elements. */
  lemma ThenExtendsElements<T>(first: Option<T>, posters: seq<Child<T>>, more: seq<Child<T>>)
    ensures Elements(first, posters + more) == Elements(first, posters) + Flatten(more)
  {
    FlattenAppend(posters, more);
  }

  /** A for-each loop over `combine(a, b)` yields a's elements followed by b's. */
  lemma CombineConcatenates<T>(a: Child<T>, b: Child<T>)
    ensures ForEachFrom(Fresh(None), None, true, [a, b]) == Ok(a + b)
  {
    ForEachSound(None, true, [a, b]);
    FlattenAppend([a], [b]);
    assert [a] + [b] == [a, b];
    assert Flatten([a]) == a by { assert [a][1..] == []; }
    assert Flatten([b]) == b by { assert [b][1..] == []; }
    assert Elements(None, [a, b]) == Flatten([a, b]);
  }

  /** Switching from a drained (or absent) child to the next one loses no
      remaining element. */
  lemma SwitchChildSound<T>(s: CursorState<T>, first: Option<T>, posters: seq<Child<T>>)
    requires Wf(s, first) && s.posterIter.Some? && s.posterIter.value.HasNext() && Exhausted(s.current)
    ensures Wf(SwitchChild(s), first)
    ensures Remaining(SwitchChild(s), first, posters) == Remaining(s, first, posters)
  {
    var p := s.posterIter.value;
    FlattenAt(p.list, p.taken);
    assert s.current.Some? ==> s.current.value.items[s.current.value.pos..] == [];
    assert p.list[p.taken][0..] == p.list[p.taken];
  }

  /** Handing out the current child's next element removes exactly that element. */
  lemma PullSound<T>(s: CursorState<T>, first: Option<T>, posters: seq<Child<T>>)
    requires Wf(s, first) && !s.onFirst && s.current.Some? && s.current.value.HasNext()
    ensures Wf(Pull(s).1, first) && Pull(s).0.Ok?
    ensures Remaining(s, first, posters) == [Pull(s).0.value] + Remaining(Pull(s).1, first, posters)
  {
    var c := s.current.value;
    assert c.items[c.pos..] == [c.items[c.pos]] + c.items[c.pos + 1..];
  }

  /** The fluentFor loop moves nothing out of the remaining elements, and stops
      on a child with elements or with no child left. */
  lemma {:induction false} AdvanceSound<T>(s: CursorState<T>, first: Option<T>, posters: seq<Child<T>>)
    requires Wf(s, first) && s.posterIter.Some?
    ensures var a := Advance(s);
      && Wf(a, first)
      && a.onFirst == s.onFirst
      && a.posterIter.Some?
      && Remaining(a, first, posters) == Remaining(s, first, posters)
      && (Exhausted(a.current) ==> !a.posterIter.value.HasNext())
      && (s.current.Some? ==> a.current.Some?)
      && (a.current.None? <==> s.current.None? && Pending(s, posters) == [])
    decreases |s.posterIter.value.list| - s.posterIter.value.taken
  {
    if Exhausted(s.current) && s.posterIter.value.HasNext() {
      var s' := SwitchChild(s);
      SwitchChildSound(s, first, posters);
      AdvanceSound(s', first, posters);
      assert Advance(s) == Advance(s');
    }
  }

  /** What one `hasNext` call does: it keeps the remaining elements, answers
      whether any remain, leaves `next` positioned when it answers true, and
      throws exactly when the cursor is past `first` in a Doomed state. */
  lemma HasNextStepSound<T>(s: CursorState<T>, first: Option<T>, postersInit: bool, posters: seq<Child<T>>)
    requires Consistent(s, first, postersInit, posters)
    ensures var (r, s') := HasNextStep(s, first, postersInit, posters);
      && Consistent(s', first, postersInit, posters)
      && Remaining(s', first, posters) == Remaining(s, first, posters)
      && (!postersInit ==> r == Ok(s.onFirst) && s' == s)
      && (r.Err? <==> !s.onFirst && Doomed(s, postersInit, posters))
      && (r.Err? ==> r.error == NullPointer && Remaining(s, first, posters) == [])
      && (r.Ok? ==> (r.value <==> Remaining(s, first, posters) != []))
      && (r == Ok(true) ==> Positioned(s'))
      && (Doomed(s', postersInit, posters) <==> Doomed(s, postersInit, posters))
  {
    if !s.onFirst && postersInit {
      var s1 := if Exhausted(s.current) && s.posterIter.None? then s.(posterIter := Some(PosterIter(posters, 0))) else s;
      assert posters[0..] == posters;
      assert Remaining(s1, first, posters) == Remaining(s, first, posters);
      AdvanceSound(s1, first, posters);
      var a := Advance(s1);
      var p := a.posterIter.value;
      if Exhausted(a.current) {
        assert p.list[p.taken..] == [];
        assert a.current.Some? ==> a.current.value.items[a.current.value.pos..] == [];
      } else {
        assert a.current.value.items[a.current.value.pos..] != [];
      }
    }
  }

  /** What one `next` call does to the elements: it yields the head of the
      remaining elements, or throws without losing any. */
  lemma NextStepSound<T>(s: CursorState<T>, first: Option<T>, postersInit: bool, posters: seq<Child<T>>)
    requires Consistent(s, first, postersInit, posters)
    ensures var (r, s') := NextStep(s, first);
      && Consistent(s', first, postersInit, posters)
      && (r.Ok? ==> Remaining(s, first, posters) == [r.value] + Remaining(s', first, posters))
      && (r.Err? ==> Remaining(s', first, posters) == Remaining(s, first, posters))
  {
    if !s.onFirst && s.current.Some? {
      if s.current.value.HasNext() {
        PullSound(s, first, posters);
      } else if s.posterIter.value.HasNext() {
        var s1 := SwitchChild(s);
        SwitchChildSound(s, first, posters);
        if s1.current.value.HasNext() {
          PullSound(s1, first, posters);
        }
      }
    }
  }

  /** When one `next` call throws: never on a positioned cursor; a
      NullPointerException exactly when past `first` with no current iterator.
      `first` is handed out once, and the poster iterator is never obtained. */
  lemma NextStepThrows<T>(s: CursorState<T>, first: Option<T>, postersInit: bool, posters: seq<Child<T>>)
    requires Consistent(s, first, postersInit, posters)
    ensures var (r, s') := NextStep(s, first);
      && (Positioned(s) ==> r.Ok?)
      && (r == Err(NullPointer) <==> !s.onFirst && s.current.None?)
      && (s.onFirst ==> r == Ok(first.value) && !s'.onFirst)
      && s'.posterIter.None? == s.posterIter.None?
      && (Doomed(s', postersInit, posters) <==> Doomed(s, postersInit, posters))
  {
    if !s.onFirst && s.current.Some? && !s.current.value.HasNext() {
      var p := s.posterIter.value;
      if p.HasNext() {
        assert p.list[p.taken + 1..] == p.list[p.taken..][1..];
      }
    }
  }

  /** A Java for-each loop from cursor state `s`: `hasNext`, then `next`, until
      `hasNext` answers false or throws; the elements `next` returned, or the exception. */
  function ForEachFrom<T>(s: CursorState<T>, first: Option<T>, postersInit: bool, posters: seq<Child<T>>): Result<seq<T>>
    requires Consistent(s, first, postersInit, posters)
    decreases |Remaining(s, first, posters)|
  {
    HasNextStepSound(s, first, postersInit, posters);
    var h := HasNextStep(s, first, postersInit, posters);
    if h.0.Err? then Err(h.0.error)
    else if !h.0.value then Ok([])
    else
      NextStepSound(h.1, first, postersInit, posters);
      NextStepThrows(h.1, first, postersInit, posters);
      var x := NextStep(h.1, first);
      var rest := ForEachFrom(x.1, first, postersInit, posters);
      if rest.Err? then rest else Ok([x.0.value] + rest.value)
  }

  /** A for-each loop yields exactly the remaining elements, unless the cursor
      is Doomed: then it throws NullPointerException once they are used up. */
  lemma {:induction false} ForEachFromSound<T>(s: CursorState<T>, first: Option<T>, postersInit: bool, posters: seq<Child<T>>)
    requires Consistent(s, first, postersInit, posters)
    ensures ForEachFrom(s, first, postersInit, posters)
      == if Doomed(s, postersInit, posters) then Err(NullPointer) else Ok(Remaining(s, first, posters))
    decreases |Remaining(s, first, posters)|
  {
    HasNextStepSound(s, first, postersInit, posters);
    var h := HasNextStep(s, first, postersInit, posters);
    if h.0 == Ok(true) {
      NextStepSound(h.1, first, postersInit, posters);
      NextStepThrows(h.1, first, postersInit, posters);
      var x := NextStep(h.1, first);
      ForEachFromSound(x.1, first, postersInit, posters);
    }
  }

  /** A for-each loop over a fresh cursor ends as ForEachOutcome says. */
  lemma ForEachSound<T>(first: Option<T>, postersInit: bool, posters: seq<Child<T>>)
    requires !postersInit ==> posters == []
    ensures ForEachFrom(Fresh(first), first, postersInit, posters) == ForEachOutcome(first, postersInit, posters)
  {
    ForEachFromSound(Fresh(first), first, postersInit, posters);
    assert Pending(Fresh(first), posters) == posters;
    assert Doomed(Fresh(first), postersInit, posters) <==> postersInit && posters == [];
    assert Remaining(Fresh(first), first, posters) == Elements(first, posters);
  }

  /** The counterexample to `hasNext` as written: a zero-argument `combine`
      (posters initialised, empty, no `first`) throws instead of answering false. */
  lemma EmptyCombineHasNextThrows<T>()
    ensures HasNextStep(Fresh<T>(None), None, true, []).0 == Err(NullPointer)
    ensures Remaining(Fresh<T>(None), None, []) == []
  {
  }

  /** `hasNext` as intended never throws and answers exactly whether elements remain. */
  lemma HasNextStepFixedSound<T>(s: CursorState<T>, first: Option<T>, postersInit: bool, posters: seq<Child<T>>)
    requires Consistent(s, first, postersInit, posters)
    ensures var (r, s') := HasNextStepFixed(s, first, postersInit, posters);
      && r.Ok?
      && (r.value <==> Remaining(s, first, posters) != [])
      && Consistent(s', first, postersInit, posters)
      && Remaining(s', first, posters) == Remaining(s, first, posters)
  {
    HasNextStepSound(s, first, postersInit, posters);
  }
}
