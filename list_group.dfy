/**
 * `ListGroup<T>`: a dictionary-like sequence of (key, value) entries kept
 * in two parallel lists, so that the key at a position can be replaced
 * while the group is being walked.
 */
module Groups {
  import opened Wrappers

  datatype Entry<T> = Entry(key: string, value: Option<T>)

  class ListGroup<T> {
    var keys: seq<string>
    var values: seq<Option<T>>

    ghost predicate Valid()
      reads this
    {
      |keys| == |values|
    }

    /** The entries in order, pairing the two lists position by position. */
    function Items(): (r: seq<Entry<T>>)
      reads this
      requires Valid()
      ensures |r| == |keys|
      ensures forall i :: 0 <= i < |r| ==> r[i].key == keys[i] && r[i].value == values[i]
    {
      var ks, vs := keys, values;
      seq(|ks|, i requires 0 <= i < |ks| => Entry(ks[i], vs[i]))
    }

    constructor ()
      ensures Valid() && keys == [] && values == [] && Items() == []
    {
      keys := [];
      values := [];
    }

    /** `Add(null, ...)` throws; otherwise the entry goes to the end. */
    method Add(key: Option<string>, value: Option<T>) returns (r: Outcome)
      requires Valid()
      modifies this
      ensures Valid()
      ensures key.None? ==> r == Fail(ArgumentNull) && keys == old(keys) && values == old(values)
      ensures key.Some? ==> r == Pass && Items() == old(Items()) + [Entry(key.value, value)]
    {
      if key.None? {
        return Fail(ArgumentNull);
      }
      keys := keys + [key.value];
      values := values + [value];
      r := Pass;
    }

    /** `ReplaceKey`: a null key throws, an index outside the list throws, otherwise only that key changes. */
    method ReplaceKey(index: int, newKey: Option<string>) returns (r: Outcome)
      requires Valid()
      modifies this
      ensures Valid() && values == old(values) && |keys| == |old(keys)|
      ensures newKey.None? ==> r == Fail(ArgumentNull) && keys == old(keys)
      ensures newKey.Some? && !(0 <= index < |keys|) ==> r == Fail(ArgumentOutOfRange) && keys == old(keys)
      ensures newKey.Some? && 0 <= index < |keys| ==> r == Pass && keys == old(keys)[index := newKey.value]
    {
      if newKey.None? {
        return Fail(ArgumentNull);
      }
      if !(0 <= index < |keys|) {
        return Fail(ArgumentOutOfRange);
      }
      keys := keys[index := newKey.value];
      r := Pass;
    }

    /** `ForIndexes()`: every position with the key stored there, in order. */
    method ForIndexes() returns (s: seq<(int, string)>)
      requires Valid()
      ensures |s| == |keys|
      ensures forall i :: 0 <= i < |s| ==> s[i] == (i, keys[i])
    {
      s := [];
      var i := 0;
      while i < |keys|
        invariant 0 <= i <= |keys| && |s| == i
        invariant forall k :: 0 <= k < i ==> s[k] == (k, keys[k])
      {
        s := s + [(i, keys[i])];
        i := i + 1;
      }
    }

    /** `ForOptions()`: every key with its value, in order. */
    method ForOptions() returns (s: seq<Entry<T>>)
      requires Valid()
      ensures s == Items()
    {
      s := [];
      var i := 0;
      while i < |keys|
        invariant 0 <= i <= |keys| && |s| == i
        invariant forall k :: 0 <= k < i ==> s[k] == Entry(keys[k], values[k])
      {
        s := s + [Entry(keys[i], values[i])];
        i := i + 1;
      }
    }
  }
}
