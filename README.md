# Fluent utilities: composite iterables, fluent wrappers, lazy wrappers

This is a Dafny model of the core utilities of the Fluent Java library:

- **`IterableWrapper`** is a composite, lazily built sequence. It has an optional eager `first` element and a deferred, append-only list of child iterables, called *posters*. `then` appends children, and `combine`, `iterable`, `nothing`, `get` and `recursive` construct wrappers. Its cursor keeps three fields: `onFirst`, a lazily obtained iterator over the posters, and the current child's iterator. `map` wraps one shared cursor and applies a function to each element.
- **`PredefinedInitializable`** is a slot that runs its supplier on the first `get` only.
- **`FluentWrapper`** holds an object and a validity flag. `d0` and `lane` act only while the wrapper is valid, `validate` can only invalidate it, and `elze` flips the flag.
- **`FluentMap`** is a HashMap behind the same validity gate. **`Seen`** is a HashSet with test-and-insert operations.
- **`Lazy`** gives three memoising wrappers, one each around a `Supplier`, a `Consumer` and a `Function`.

The model has these modules:

- `Base`:
  - `Option` stands for a Java reference that may be null.
  - `Result` stands for a value or a thrown `NullPointerException` / `NoSuchElementException`.
- `Callbacks`: the `java.util.function` objects the code is handed, as classes.
  - Each records its calls in a ghost log.
  - `Function` and `Supplier` carry the mathematical function they compute.
- `Traversal`: the iteration semantics as values.
  - `Elements(first, posters)` is what a wrapper yields.
  - `CursorState` and the pure steps `HasNextStep` and `NextStep` describe one `hasNext` or `next` call.
  - The lemmas state what those steps do.
  - `ForEachFrom` is a Java for-each loop run with those steps.
- `Iterables`: the `IterableWrapper` and cursor classes, which update their fields in place.
  - `Cursor.HasNext` runs the child-switching loop of `hasNext` as a `while` loop.
  - Each cursor method is proved equal to the step function of `Traversal`.
- `Initializables`: `PredefinedInitializable`. It also holds the `Initializable` base behaviour that `Lazy` relies on. `IterableWrapper` does not use this class for its deferred `posters` slot: the slot's supplier only makes an empty list, so the wrapper keeps it inline as a flag (`postersInit`) and the list (`posters`).
- `FluentWrappers`: `FluentWrapper` and its static factories.
- `Collections`: `Seen` and `FluentMap`. `FluentMap.Get` and `FluentMap.Size` (FluentMap.java lines 32-38) read the map whatever its validity; what they answer after a change is stated on `Put` and `Clear`.
- `Lazy`: the three `lazy` wrappers.
  - Memoisation of a `Function` is modelled as a state machine (`Memo`, `MemoStep`, `MemoRun`).
  - A corrected memoiser (`MemoStepFixed`, `MemoRunFixed`) stands beside it.

Child iterables are represented by the sequence of elements their iterators yield (`Child<T> = seq<T>`).

## Model

| member | source | states |
|---|---|---|
| Iterables.IterableWrapper.constructor | src/main/java/util/IterableWrapper.java:22-24 | A new wrapper has no `first`, and its `posters` slot is not yet created (no list, nothing yielded). |
| Iterables.IterableWrapper.WithFirst | src/main/java/util/IterableWrapper.java:70-74 | The wrapper `iterable(x)` builds: valid, not silent, `first` is `x`, and its posters slot is not yet created. |
| Iterables.IterableWrapper.Silent | src/main/java/util/IterableWrapper.java:31-48 | The anonymous `nothing` subclass: flagged silent, no `first`, posters not created. |
| Iterables.IterableWrapper.Then | src/main/java/util/IterableWrapper.java:82-86 | `then(iterable)` creates the posters list if needed, appends exactly that child at the end and returns the same wrapper. |
| Iterables.IterableWrapper.ThenAll | src/main/java/util/IterableWrapper.java:88-98 | The varargs and collection `then` create the list if needed, append the children in the given order and return the same wrapper. |
| Iterables.IterableWrapper.ThenValue | src/main/java/util/IterableWrapper.java:76-80 | `then(t)` appends the single-element child `[t]`. A null `t` throws NullPointerException, leaves the list unchanged, and has still created it. |
| Iterables.IterableWrapper.Iterator | src/main/java/util/IterableWrapper.java:120-126 | `iterator()` returns a new cursor, positioned on `first` when there is one, whose remaining elements are exactly the wrapper's elements. |
| Iterables.IterableWrapper.Map | src/main/java/util/IterableWrapper.java:100-118 | `map(f)` creates one cursor over this wrapper immediately, in its initial state, and the mapped wrapper keeps it together with `f`. |
| Iterables.Cursor.constructor | src/main/java/util/IterableWrapper.java:122-125 | A new cursor: `onFirst` iff `first` is non-null, no poster iterator yet, no current iterator. |
| Iterables.Cursor.HasNext | src/main/java/util/IterableWrapper.java:127-132 | `hasNext` answers true while `first` is pending. It answers false when posters were never created. Otherwise it skips drained children and answers whether any element remains. It never consumes an element, and when it answers true the next `next` succeeds. It throws NullPointerException exactly when past `first` with no current iterator and no child left (the Doomed state: the posters list exists, but no child is current or left). Proved equal to `Traversal.HasNextStep`. |
| Iterables.Cursor.Next | src/main/java/util/IterableWrapper.java:134-139 | `next` returns `first` once, then the head of the remaining elements, removing it. It throws NullPointerException when past `first` with no current iterator yet. It throws NoSuchElementException when the current child is drained and either the next child is empty or no child is left (for children that follow Java's `Iterator` contract). It never throws after `hasNext` answered true. A `nothing` cursor returns null. Proved equal to `Traversal.NextStep`. |
| Iterables.MappedWrapper.Iterator | src/main/java/util/IterableWrapper.java:102-104 | Every cursor of a mapped wrapper delegates to the same shared original cursor. |
| Iterables.MappedCursor.HasNext | src/main/java/util/IterableWrapper.java:106-109 | The mapped `hasNext` is exactly one `hasNext` step of the shared cursor. |
| Iterables.MappedCursor.Next | src/main/java/util/IterableWrapper.java:111-114 | The mapped `next` applies `f` once to what the shared cursor's `next` returned. An exception from that cursor propagates without calling `f`. |
| Iterables.Of | src/main/java/util/IterableWrapper.java:70-74 | `iterable(x)` rejects null with NullPointerException. Otherwise it returns a wrapper whose only element is `x`. |
| Iterables.Nothing | src/main/java/util/IterableWrapper.java:31-48 | `nothing(_)` returns a wrapper that yields nothing. |
| Iterables.Get | src/main/java/util/IterableWrapper.java:26-29 | `get(iterable)` as written: the child is appended to a `nothing` wrapper, so the result yields nothing (see Findings). |
| Iterables.Wrap | src/main/java/util/IterableWrapper.java:26-29 | Corrected `get(iterable)`: a wrapper that yields exactly the child's elements. |
| Iterables.Combine | src/main/java/util/IterableWrapper.java:50-61 | `combine(...)` (both overloads): no `first`, posters exactly the given children, yielding their concatenation. |
| Iterables.Recursive | src/main/java/util/IterableWrapper.java:63-68 | `recursive(v)` rejects null. Otherwise it is `iterable(v)` followed by one child that yields nothing, so it yields exactly `[v]`. |
| Traversal.FlattenAppend | src/main/java/util/IterableWrapper.java:88-98 | Appending children appends their elements: flattening distributes over concatenation. |
| Traversal.ThenExtendsElements | src/main/java/util/IterableWrapper.java:82-98 | After `then`, a wrapper yields its old elements followed by exactly the new children's elements. |
| Traversal.CombineConcatenates | src/main/java/util/IterableWrapper.java:50-55 | A for-each loop (`hasNext`, then `next`) over a fresh cursor of `combine(a, b)` yields `a`'s elements followed by `b`'s, for children that do not throw. |
| Traversal.SwitchChildSound | src/main/java/util/IterableWrapper.java:130-131 | Switching from an absent or drained current iterator to the next child's fresh iterator keeps the cursor well formed and loses no remaining element. |
| Traversal.PullSound | src/main/java/util/IterableWrapper.java:138 | Asking a current child that has more for its next element removes exactly that element from what remains. |
| Traversal.AdvanceSound | src/main/java/util/IterableWrapper.java:129-131 | The child-switching loop loses no remaining element. It stops on a child with elements or when no child is left, and keeps a current iterator once one exists. |
| Traversal.HasNextStepSound | src/main/java/util/IterableWrapper.java:127-132 | One `hasNext` keeps the cursor consistent and the remaining elements unchanged. It answers exactly whether elements remain, positions `next` when true, and throws exactly in the Doomed state past `first`. |
| Traversal.NextStepSound | src/main/java/util/IterableWrapper.java:134-139 | One `next` keeps the cursor consistent and removes exactly the returned head of the remaining elements, or throws and removes nothing. |
| Traversal.NextStepThrows | src/main/java/util/IterableWrapper.java:134-139 | `next` never throws on a positioned cursor. It throws NullPointerException exactly when past `first` with no current iterator. It returns `first` once. It never obtains the poster iterator itself, and it keeps the Doomed state. |
| Traversal.ForEachFromSound | src/main/java/util/IterableWrapper.java:120-139 | A for-each loop (`hasNext`, then `next`, until `hasNext` answers false) from any consistent cursor state collects exactly the remaining elements. In a Doomed state it ends in NullPointerException instead. |
| Traversal.ForEachSound | src/main/java/util/IterableWrapper.java:120-139 | A for-each loop over a wrapper not built by `nothing` yields `first` followed by every poster's elements in order, for children that do not throw. It throws NullPointerException when the posters list exists but is empty. |
| Traversal.EmptyCombineHasNextThrows | src/main/java/util/IterableWrapper.java:127-132 | As written, a zero-argument `combine()` cursor has no elements, yet its first `hasNext` throws NullPointerException (see Findings). |
| Traversal.HasNextStepFixedSound | src/main/java/util/IterableWrapper.java:127-132 | Corrected `hasNext` never throws and answers exactly whether elements remain, leaving them unchanged. |
| Initializables.PredefinedInitializable.constructor | src/main/java/flute/util/PredefinedInitializable.java:42-45 | The supplier constructor stores the supplier and leaves the slot uninitialised and empty. |
| Initializables.Initializable.constructor | src/main/java/util/Lazy.java:15 | `initializable()` gives a slot that is uninitialised and empty. |
| Initializables.PredefinedInitializable.Get | src/main/java/flute/util/PredefinedInitializable.java:61-68 | The first `get` runs the supplier exactly once and stores and returns its value. Later calls return the stored value without running it. |
| Initializables.InitializableBy | src/main/java/flute/util/PredefinedInitializable.java:57-59 | `initializable(supplier)` returns a new, uninitialised slot over that supplier. |
| Initializables.Initializable.Suggest | src/main/java/util/Lazy.java:15-18 | The base-class `suggest(s)` that `lazy(Supplier)` calls runs `s` on the first call only and returns the stored value afterwards. |
| FluentWrappers.FluentWrapper.constructor | src/main/java/util/fluent/FluentWrapper.java:18-20 | A new wrapper is valid, and `origin()` returns the wrapped object. That object is a constant, so `origin()` returns it whatever the validity. |
| FluentWrappers.FluentWrapper.Origin | src/main/java/util/fluent/FluentWrapper.java:133-135 | `origin()` returns the object the wrapper was built with. It reads no mutable field, so it answers the same whether the wrapper is valid or not. |
| FluentWrappers.FluentWrapper.D0 | src/main/java/util/fluent/FluentWrapper.java:82-86 | `d0(action)` runs `action` once on the wrapped object iff valid, never changes validity and returns the same wrapper. |
| FluentWrappers.FluentWrapper.Lane | src/main/java/util/fluent/FluentWrapper.java:97-103 | `lane(f)` returns a new wrapper that is valid iff this one is. It wraps `f(inner)` when valid, with `f` run once. It wraps null when invalid, without running `f`. |
| FluentWrappers.FluentWrapper.Validate | src/main/java/util/fluent/FluentWrapper.java:114-118 | After `validate(p)` the wrapper is invalid iff it was invalid already or `p` rejects the wrapped object. |
| FluentWrappers.FluentWrapper.Elze | src/main/java/util/fluent/FluentWrapper.java:125-128 | `elze()` flips validity. |
| FluentWrappers.Fluent | src/main/java/util/fluent/FluentWrapper.java:31-33 | `fluent(object)` returns a new valid wrapper of `object`. |
| FluentWrappers.FluentAccept | src/main/java/util/fluent/FluentWrapper.java:45-48 | `fluent(object, action)` runs `action` once on `object` and returns `object`. |
| FluentWrappers.Silent | src/main/java/util/fluent/FluentWrapper.java:68-72 | `silent(object)` returns a new invalid wrapper of `object`. |
| FluentWrappers.FluentIf | src/main/java/util/fluent/FluentWrapper.java:59-61 | `fluentIf(c)` returns a wrapper of null that is valid iff `c`. |
| Collections.Seen.Seen | src/main/java/util/collections/Seen.java:10-15 | `seen(t)` answers whether `t` was present, and `t` is present afterwards. |
| Collections.Seen.SeenAll | src/main/java/util/collections/Seen.java:17-22 | `seenAll(c)` answers true, changing nothing, iff all of `c` was present. Otherwise it adds all of `c`. |
| Collections.Seen.IfNotSeen | src/main/java/util/collections/Seen.java:24-27 | `ifNotSeen(t, op)` runs `op` on `t` exactly when `t` was absent, and marks `t` seen. |
| Collections.FluentMap.constructor | src/main/java/util/collections/FluentMap.java:12-14 | A new FluentMap is a valid, empty map. |
| Collections.FluentMap.Of | src/main/java/util/collections/FluentMap.java:16-18 | `new FluentMap(map)` is valid and holds `map`. |
| Collections.FluentMapOf | src/main/java/util/collections/FluentMap.java:20-22 | `fluentMap(map)` returns a new valid FluentMap holding `map`. |
| Collections.FluentMap.D0 | src/main/java/util/collections/FluentMap.java:56-59 | `d0(action)` changes the map by `action` iff valid, and never changes validity. |
| Collections.FluentMap.Validate | src/main/java/util/collections/FluentMap.java:61-64 | `validate(p)` leaves the map unchanged. It invalidates iff it was invalid already or `p` rejects the map. |
| Collections.FluentMap.Clear | src/main/java/util/collections/FluentMap.java:24-38 | `clear()` empties the map iff valid: afterwards `size()` is 0 and `get` answers null for every key. An invalid map is unchanged. |
| Collections.FluentMap.Put | src/main/java/util/collections/FluentMap.java:28-38 | `put(k, v)` maps `k` to `v` iff valid, leaving every other key unchanged. Afterwards a valid map's `get(k)` answers `v`, `get` answers the old value for every other old key, and `size()` grows by one exactly when the map is valid and `k` was new. An invalid map is unchanged. |
| Collections.FluentMap.IfContainsKey | src/main/java/util/collections/FluentMap.java:40-42 | Invalidates iff the key is absent, or the map was invalid already. The map is unchanged. |
| Collections.FluentMap.IfNotContainsKey | src/main/java/util/collections/FluentMap.java:44-46 | Invalidates iff the key is present, or the map was invalid already. The map is unchanged. |
| Collections.FluentMap.IfContainsValue | src/main/java/util/collections/FluentMap.java:48-50 | Invalidates iff no key maps to the value, or the map was invalid already. The map is unchanged. |
| Collections.FluentMap.IfNotContainsValue | src/main/java/util/collections/FluentMap.java:52-54 | Invalidates iff some key maps to the value, or the map was invalid already. The map is unchanged. |
| Lazy.LazySupplier.constructor | src/main/java/util/Lazy.java:13-15 | `lazy(supplier)` starts with an empty, uninitialised slot. |
| Lazy.LazySupplier.Get | src/main/java/util/Lazy.java:17-19 | The lazy supplier runs `supplier` on the first `get` only. Every call returns that first value. |
| Lazy.LazyConsumer.constructor | src/main/java/util/Lazy.java:23-25 | `lazy(consumer)` starts having seen and forwarded nothing. |
| Collections.Seen.constructor | src/main/java/util/Lazy.java:25 | `new Seen<>()` has seen nothing. |
| Lazy.LazyConsumer.Accept | src/main/java/util/Lazy.java:27-30 | `accept(t)` forwards `t` to the consumer exactly when `t` was not accepted before. The forwarded sequence is always the de-duplicated sequence of accepted arguments. |
| Lazy.DedupDistinct | src/main/java/util/Lazy.java:23-32 | What the lazy consumer forwards holds every accepted argument, and each one only once. |
| Lazy.LazyFunction.constructor | src/main/java/util/Lazy.java:35-36 | `lazy(function)` starts with a valid, empty results map. |
| Lazy.LazyFunction.Apply | src/main/java/util/Lazy.java:38-41 | `apply(t)` calls the function on every call, and its answer and the new map state are exactly one `MemoStep`. |
| Lazy.MemoStep | src/main/java/util/Lazy.java:40 | A stored key invalidates the map and answers the stored value. A new key is stored and answered while the map is valid. A new key on an invalid map is not stored and answers null. |
| Lazy.StickyInvalidation | src/main/java/util/Lazy.java:36-41 | Once the results map is invalid, nothing is stored again, and every later answer is the stored value or null. |
| Lazy.NewKeyLostAfterRepeat | src/main/java/util/Lazy.java:34-43 | As written, the calls `a, a, b` (with `a != b`) answer `fn(a), fn(a), null`: `b` never gets `fn(b)` (see Findings). |
| Lazy.MemoRunFixedAgrees | src/main/java/util/Lazy.java:34-43 | The corrected memoiser answers `fn(t)` for every call of every run, and its map holds only `fn`'s own results. |

## Left out

- Children as values: a child iterable is its element sequence. Mutation of a child after it is appended, aliasing between wrappers (a wrapper appended to itself or to another), and the laziness of a child's own iterator are not modelled. A mapped wrapper appended as a child is represented by its elements only. A child's `hasNext` never throws here, so an exception raised inside a nested wrapper's `hasNext` (for example the NullPointerException of an inner `combine()`, as in `combine(iterable(1), combine())`) is not propagated to the outer loop.
- Iterables.Cursor.Next: every child is taken to follow Java's `Iterator` contract, so a drained child's `next()` throws NoSuchElementException. A child built by `nothing` or `get` answers null from `next()` instead (IterableWrapper.java lines 41-44), and that null is what the outer `next` returns. The model does not capture this: for `combine(List.of(1), nothing(null))`, the calls `hasNext`, `next`, `next` answer `true`, `1`, null in the source, but end in NoSuchElementException here.
- Null children are not modelled: `then((Iterable<T>) null)` or `combine(a, null)` is accepted by the source, and the cursor throws NullPointerException when it reaches that child (IterableWrapper.java lines 131 and 138). Here every child is a sequence.
- `map` applied to the anonymous wrapper returned by `map` is not modelled. Its cursor would map the shared cursor of the first mapped wrapper a second time.
- `then` on the anonymous wrapper returned by `map` is not modelled. Like `nothing`, that wrapper's cursors ignore its own posters.
- The poster iterator walks the posters list as it was when first obtained. The `ConcurrentModificationException` that Java's `LinkedList` iterator throws after a later `then` is not modelled.
- The value constructor `PredefinedInitializable(T value)` (line 38-40) is not modelled: it only forwards to the `Initializable` base class, which is not part of this model.
- Initializables.PredefinedInitializable.Get: a supplier that re-enters `get` is not modelled. The source marks the slot initialised before running the supplier, so a re-entrant call would see an initialised slot that holds null.
- Initializable.java, util.Fluent (the base of FluentMap), `Fluent.fluentFor`, `M`, `MBoolean` and `Functionals.empty` are not part of this model. The model assumes the following about them:
  - `fluentFor(m, cond, step, _)` repeats `m := step(m)` while `cond(m)` holds and returns `m`.
  - util.Fluent's `d0`, `validate` and `origin` behave as FluentWrapper's do.
  - `Initializable.initializable()` and `suggest` behave as described in the Initializable.Suggest row.
  - Initializable's `initialized` field, `set(v)` and `super.get()`, as `PredefinedInitializable.get` uses them, are a flag, a store of `v` and a read of the stored value.
  - In IterableWrapper's cursor, the static `fluent(value, action)` and `fluent(value)` (imported from both `util.fluent.Fluent` and `FluentWrapper`) are FluentWrapper's: `fluent(value, action)` runs `action` once and returns `value`, and `fluent(value)` is a valid FluentWrapper whose `validate`, `d0` and `origin` behave as modelled in `FluentWrappers`.
  - `M.mutable()` is a box that starts holding null, with `get` and `set`. `MBoolean` is a boolean cell with `booleanValue`, `get` and `set`. The cursor's current iterator therefore starts absent.
  - `Functionals.empty()`, the fourth argument of `fluentFor`, does nothing.
  - Lazy.java imports `util.fluent.collections.FluentMap`, and IterableWrapper.java imports `util.PredefinedInitializable`. Neither of those files is part of this model. Both imports are taken to name the classes of the same names in `util/collections/FluentMap.java` and `flute/util/PredefinedInitializable.java`.
- Iterables.Recursive: the `instanceof Iterable` test is not modelled. Both branches append a child that yields nothing (a mapped `nothing` cursor, or `nothing(null)`), so the result is the same. A pre-order flattening of nested iterables is not stated: the code as written yields only `[v]`, and the source marks the method as untested.
- `nothing`'s unused parameter is dropped.
- Predicates, functions and actions passed to the code are modelled as pure mathematical functions or as logging callbacks. Exceptions thrown by them are not modelled.
- Collections.FluentMap.Size: Java's `int` result is not bounded at 2^31 - 1 here.
- Java `equals`/`hashCode` are Dafny equality. Null keys and values in FluentMap and Seen are not modelled, so a null `get` result always means an absent key.
- `new FluentMap(map)` shares the caller's map. Here the map is copied as a value, so later changes made through the caller's reference are not seen.

## Findings

| source | as written | input that shows it | evidently intended | confidence | as-written member | corrected member |
|---|---|---|---|---|---|---|
| src/main/java/util/IterableWrapper.java:129-131 | Once `first` is spent, `hasNext` runs the child-switching loop. With an initialised but empty posters list the loop leaves the current iterator null, and `.get().hasNext()` dereferences it. | `combine()` with no arguments (or `combine(emptyList)`): the first `hasNext()` throws NullPointerException | answer false, since nothing remains | not executed | Traversal.EmptyCombineHasNextThrows | Traversal.HasNextStepFixedSound |
| src/main/java/util/IterableWrapper.java:26-29 | `get(iterable)` appends the iterable to `nothing(null)`, whose overridden `iterator()` never yields | `get(List.of(1, 2))` yields no element | a wrapper that yields the iterable's elements | not executed | Iterables.Get | Iterables.Wrap |
| src/main/java/util/Lazy.java:40 | `ifNotContainsKey(t)` on a repeated argument invalidates the map permanently. From then on `put` is skipped, so every new argument answers null, and `function.apply(t)` is evaluated on every call. | `apply(a), apply(a), apply(b)` with `a != b` answers `fn(a), fn(a), null` | store each new argument's result and answer the stored result | not executed | Lazy.NewKeyLostAfterRepeat | Lazy.MemoRunFixedAgrees |
