/** util/collections/Seen.java and util/collections/FluentMap.java. */
module Collections {
  import opened Base
  import opened Callbacks

  /** A HashSet with test-and-insert operations. */
  class Seen<T(==)> {
    var elements: set<T>

    constructor ()
      ensures elements == {}
    {
      elements := {};
    }

    /** `seen(t)`: whether `t` was already there; `t` is there afterwards. */
    method Seen(t: T) returns (b: bool)
      modifies this
      ensures b <==> t in old(elements)
      ensures elements == old(elements) + {t}
    {
      if t in elements {
        return true;
      }
      elements := elements + {t};
      b := false;
    }

    /** `seenAll(c)`: true, changing nothing, iff every element of `c` is
        there; otherwise adds all of `c` and answers false. */
    method SeenAll(c: seq<T>) returns (b: bool)
      modifies this
      ensures b <==> forall x :: x in c ==> x in old(elements)
      ensures b ==> elements == old(elements)
      ensures !b ==> elements == old(elements) + set x | x in c
    {
      if forall x :: x in c ==> x in elements {
        return true;
      }
      elements := elements + set x | x in c;
      b := false;
    }

    /** `ifNotSeen(t, operation)`: runs `operation` on `t` exactly when `t` was
        not there, and marks `t` seen. */
    method IfNotSeen(t: T, operation: Consumer<T>)
      modifies this, operation
      ensures elements == old(elements) + {t}
      ensures operation.received == old(operation.received) + (if t in old(elements) then [] else [t])
    {
      var b := Seen(t);
      if !b {
        operation.Accept(t);
      }
    }
  }

  /** A HashMap behind the validity gate of a fluent wrapper: `d0` changes the
      map only while valid and `validate` can only invalidate. The gate is
      util.Fluent's, which is not part of this model; it is taken to behave as
      FluentWrapper's `d0` and `validate` do. */
  class FluentMap<K(==), V(==)> {
    var contents: map<K, V>
    var invalid: bool

    /** `new FluentMap()`: a valid wrapper of an empty HashMap. */
    constructor ()
      ensures contents == map[] && !invalid
    {
      contents, invalid := map[], false;
    }

    /** `new FluentMap(map)`: a valid wrapper of `m`. */
    constructor Of(m: map<K, V>)
      ensures contents == m && !invalid
    {
      contents, invalid := m, false;
    }

    /** `d0(action)`: applies `action` to the map only while valid. */
    method D0(action: map<K, V> -> map<K, V>) returns (r: FluentMap<K, V>)
      modifies this
      ensures r == this && invalid == old(invalid)
      ensures contents == if invalid then old(contents) else action(old(contents))
    {
      if !invalid {
        contents := action(contents);
      }
      r := this;
    }

    /** `validate(test)`: invalidates a valid wrapper whose map fails `test`. */
    method Validate(test: map<K, V> -> bool) returns (r: FluentMap<K, V>)
      modifies this
      ensures r == this && contents == old(contents)
      ensures invalid == (old(invalid) || !test(contents))
    {
      if !invalid && !test(contents) {
        invalid := true;
      }
      r := this;
    }

    /** `clear()`: empties the map when valid. */
    method Clear() returns (r: FluentMap<K, V>)
      modifies this
      ensures r == this && invalid == old(invalid)
      ensures contents == if invalid then old(contents) else map[]
      ensures !invalid ==> Size() == 0 && forall k :: Get(k) == None
    {
      r := D0(m => map[]);
    }

    /** `put(key, value)`: maps `key` to `value` when valid. */
    method Put(key: K, value: V) returns (r: FluentMap<K, V>)
      modifies this
      ensures r == this && invalid == old(invalid)
      ensures contents == if invalid then old(contents) else old(contents)[key := value]
      ensures !invalid ==> Get(key) == Some(value)
      ensures forall k :: k != key && k in old(contents) ==> Get(k) == Some(old(contents)[k])
      ensures Size() == if invalid || key in old(contents) then old(Size()) else old(Size()) + 1
    {
      r := D0(m => m[key := value]);
    }

    /** `get(key)`: the value stored for `key`, or null; validity plays no part. */
    function Get(key: K): (r: Option<V>)
      reads this
      ensures r.Some? <==> key in contents
      ensures r.Some? ==> r.value == contents[key]
    {
      if key in contents then Some(contents[key]) else None
    }

    /** `size()`: the number of keys; validity plays no part. */
    function Size(): (n: nat)
      reads this
      ensures n == |contents.Keys|
    {
      |contents|
    }

    /** `ifContainsKey(key)`: invalidates when `key` is absent. */
    method IfContainsKey(key: K) returns (r: FluentMap<K, V>)
      modifies this
      ensures r == this && contents == old(contents)
      ensures invalid == (old(invalid) || key !in contents)
    {
      r := Validate(m => key in m);
    }

    /** `ifNotContainsKey(key)`: invalidates when `key` is present. */
    method IfNotContainsKey(key: K) returns (r: FluentMap<K, V>)
      modifies this
      ensures r == this && contents == old(contents)
      ensures invalid == (old(invalid) || key in contents)
    {
      r := Validate(m => key !in m);
    }

    /** `ifContainsValue(value)`: invalidates when no key maps to `value`. */
    method IfContainsValue(value: V) returns (r: FluentMap<K, V>)
      modifies this
      ensures r == this && contents == old(contents)
      ensures invalid == (old(invalid) || value !in contents.Values)
    {
      r := Validate((m: map<K, V>) => value in m.Values);
    }

    /** `ifNotContainsValue(value)`: invalidates when some key maps to `value`. */
    method IfNotContainsValue(value: V) returns (r: FluentMap<K, V>)
      modifies this
      ensures r == this && contents == old(contents)
      ensures invalid == (old(invalid) || value in contents.Values)
    {
      r := Validate((m: map<K, V>) => value !in m.Values);
    }
  }

  /** `fluentMap(map)`. */
  method FluentMapOf<K(==), V(==)>(m: map<K, V>) returns (f: FluentMap<K, V>)
    ensures fresh(f) && f.contents == m && !f.invalid
  {
    f := new FluentMap.Of(m);
  }
}
