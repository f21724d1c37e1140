/**
 * The tables both runtime parsers build from the attributed properties in
 * their constructors: a name table (short and long names to the property)
 * and an index table (value index to its length and property).  The
 * mutable parser keeps its index table in a `SortedList`, the immutable
 * one in a `Dictionary` that enumerates in insertion order.  A property is
 * identified by its position in the property list.
 */
module Registration {
  import opened Wrappers
  import opened DotNet
  import opened Attributes
  import opened Reflection

  /** A key of the two name dictionaries: a short name or a long name. */
  datatype Name = ShortName(c: char) | LongName(s: string)

  /** The long name an option property registers: its `LongName`, or the property name when that is null or blank. */
  function LongKey(p: PropertyInfo): string
    requires p.option.Some?
  {
    var ln := p.option.value.longName;
    if ln.None? || IsNullOrWhiteSpace(ln) then p.name else ln.value
  }

  /** Whether property `p` registers name `n`. */
  predicate Registers(p: PropertyInfo, n: Name)
  {
    p.option.Some? &&
    match n
    case ShortName(c) => p.option.value.shortName == Some(c)
    case LongName(s) => LongKey(p) == s
  }

  /** One constructor step for the name tables: the short name, if any, then the long name. */
  function RegisterNames(t: map<Name, nat>, p: PropertyInfo, i: nat): (r: map<Name, nat>)
    ensures forall n :: n in r <==> n in t || Registers(p, n)
    ensures forall n :: n in r ==> r[n] == if Registers(p, n) then i else t[n]
  {
    if p.option.None? then t
    else
      var t1 := if p.option.value.shortName.Some? then t[ShortName(p.option.value.shortName.value) := i] else t;
      t1[LongName(LongKey(p)) := i]
  }

  function NameTable(props: seq<PropertyInfo>): map<Name, nat>
  {
    if props == [] then map[]
    else RegisterNames(NameTable(props[..|props| - 1]), props[|props| - 1], |props| - 1)
  }

  /** A name is registered exactly when some property registers it. */
  lemma {:induction false} NameTableDomain(props: seq<PropertyInfo>, n: Name)
    ensures n in NameTable(props) <==> exists i :: 0 <= i < |props| && Registers(props[i], n)
  {
    if props != [] {
      var last := |props| - 1;
      var pre := props[..last];
      NameTableDomain(pre, n);
      if exists i :: 0 <= i < |pre| && Registers(pre[i], n) {
        var i :| 0 <= i < |pre| && Registers(pre[i], n);
        assert props[i] == pre[i];
      }
      if exists i :: 0 <= i < |props| && Registers(props[i], n) {
        var i :| 0 <= i < |props| && Registers(props[i], n);
        if i < last {
          assert pre[i] == props[i];
        }
      }
    }
  }

  /** A registered name maps to the last property that registers it. */
  lemma {:induction false} NameTableLastWins(props: seq<PropertyInfo>, n: Name)
    ensures n in NameTable(props) ==>
      var i := NameTable(props)[n];
      i < |props| && Registers(props[i], n) && forall j :: i < j < |props| ==> !Registers(props[j], n)
  {
    if props != [] {
      var last := |props| - 1;
      var pre := props[..last];
      NameTableLastWins(pre, n);
      if n in NameTable(props) && !Registers(props[last], n) {
        var i := NameTable(pre)[n];
        assert props[i] == pre[i];
        forall j | i < j < |props|
          ensures !Registers(props[j], n)
        {
          if j < last {
            assert pre[j] == props[j];
          }
        }
      }
    }
  }

  /** A name registered by property `i` and by no later property is looked up as property `i`. */
  lemma RegisteredByLast(props: seq<PropertyInfo>, i: nat, n: Name)
    requires i < |props| && Registers(props[i], n)
    requires forall j :: i < j < |props| ==> !Registers(props[j], n)
    ensures n in NameTable(props) && NameTable(props)[n] == i
  {
    NameTableDomain(props, n);
    NameTableLastWins(props, n);
  }

  /**
   * `[Option(shortName, longName)]` with an accepted long name: once the
   * constructor has registered the properties, both names look up that
   * property, unless a later property takes the same name.
   */
  lemma DeclaredOptionNamesResolve(props: seq<PropertyInfo>, i: nat, c: char, l: string)
    requires i < |props| && NewOptionAttributeShortLong(c, Some(l)).Success?
    requires props[i].option == Some(NewOptionAttributeShortLong(c, Some(l)).value)
    requires forall j :: i < j < |props| ==> !Registers(props[j], ShortName(c)) && !Registers(props[j], LongName(l))
    ensures ShortName(c) in NameTable(props) && NameTable(props)[ShortName(c)] == i
    ensures LongName(l) in NameTable(props) && NameTable(props)[LongName(l)] == i
  {
    RegisteredByLast(props, i, ShortName(c));
    RegisteredByLast(props, i, LongName(l));
  }

  /** `[Option(longName)]` with an accepted long name: that name looks up the property, and no short name is registered for it. */
  lemma DeclaredLongNameResolves(props: seq<PropertyInfo>, i: nat, l: string)
    requires i < |props| && NewOptionAttributeLong(Some(l)).Success?
    requires props[i].option == Some(NewOptionAttributeLong(Some(l)).value)
    requires forall j :: i < j < |props| ==> !Registers(props[j], LongName(l))
    ensures LongName(l) in NameTable(props) && NameTable(props)[LongName(l)] == i
    ensures forall c :: !Registers(props[i], ShortName(c))
  {
    RegisteredByLast(props, i, LongName(l));
  }

  /** `[Option]` without names: the property's own name is its long name, and it has no short name. */
  lemma BareOptionUsesPropertyName(props: seq<PropertyInfo>, i: nat)
    requires i < |props| && props[i].option == Some(NewOptionAttribute())
    requires forall j :: i < j < |props| ==> !Registers(props[j], LongName(props[i].name))
    ensures LongName(props[i].name) in NameTable(props) && NameTable(props)[LongName(props[i].name)] == i
    ensures forall c :: !Registers(props[i], ShortName(c))
  {
    RegisteredByLast(props, i, LongName(props[i].name));
  }

  // ---------------------------------------------------------------- index tables

  /** An entry of an index table: the value's length and its property. */
  datatype Slot = Slot(length: int32, property: nat)

  type SlotList = seq<(int32, Slot)>

  predicate HasValueAt(p: PropertyInfo, k: int32)
  {
    p.value.Some? && p.value.value.index == k
  }

  function Lookup(s: SlotList, k: int32): (r: Option<Slot>)
    ensures r.Some? <==> exists j :: 0 <= j < |s| && s[j].0 == k
  {
    if s == [] then None
    else if s[0].0 == k then Some(s[0].1)
    else
      var r := Lookup(s[1..], k);
      assert forall j :: 1 <= j < |s| ==> s[j] == s[1..][j - 1];
      r
  }

  predicate KeysSorted(s: SlotList)
  {
    forall a, b :: 0 <= a < b < |s| ==> s[a].0 < s[b].0
  }

  predicate KeysDistinct(s: SlotList)
  {
    forall a, b :: 0 <= a < b < |s| ==> s[a].0 != s[b].0
  }

  /** `SortedList[k] = v`: overwrite the entry with key k, or insert it in key order. */
  function SortedPut(s: SlotList, k: int32, v: Slot): (r: SlotList)
    requires KeysSorted(s)
    ensures KeysSorted(r)
    ensures forall x :: Lookup(r, x) == if x == k then Some(v) else Lookup(s, x)
  {
    if s == [] then [(k, v)]
    else if k < s[0].0 then
      var r := [(k, v)] + s;
      assert r[1..] == s;
      r
    else if k == s[0].0 then
      var r := [(k, v)] + s[1..];
      assert r[1..] == s[1..];
      LookupSortedTail(s, k);
      r
    else
      var tail := SortedPut(s[1..], k, v);
      TailKeysAbove(s, k, v, tail);
      SortedCons(s[0], tail);
      ConsLookup(s, k, v, tail);
      [s[0]] + tail
  }

  /** Every key of `tail` is one of the rest of `s` or `k`, so in a sorted `s` all lie above the first key. */
  lemma TailKeysAbove(s: SlotList, k: int32, v: Slot, tail: SlotList)
    requires KeysSorted(s) && s != [] && s[0].0 < k
    requires forall x :: Lookup(tail, x) == if x == k then Some(v) else Lookup(s[1..], x)
    ensures forall j :: 0 <= j < |tail| ==> tail[j].0 > s[0].0
  {
    forall j | 0 <= j < |tail|
      ensures tail[j].0 > s[0].0
    {
      if tail[j].0 != k {
        assert Lookup(tail, tail[j].0).Some?;
        assert Lookup(s[1..], tail[j].0).Some?;
        var m :| 0 <= m < |s[1..]| && s[1..][m].0 == tail[j].0;
        assert s[1..][m] == s[m + 1];
      }
    }
  }

  lemma SortedCons(h: (int32, Slot), tail: SlotList)
    requires KeysSorted(tail) && forall j :: 0 <= j < |tail| ==> tail[j].0 > h.0
    ensures KeysSorted([h] + tail)
  {
    var r := [h] + tail;
    forall a, b | 0 <= a < b < |r|
      ensures r[a].0 < r[b].0
    {
      assert r[b] == tail[b - 1];
      if a > 0 {
        assert r[a] == tail[a - 1];
      }
    }
  }

  /** Behind a first entry with another key, a put into the rest is a put into the whole. */
  lemma ConsLookup(s: SlotList, k: int32, v: Slot, tail: SlotList)
    requires s != [] && s[0].0 != k
    requires forall x :: Lookup(tail, x) == if x == k then Some(v) else Lookup(s[1..], x)
    ensures forall x :: Lookup([s[0]] + tail, x) == if x == k then Some(v) else Lookup(s, x)
  {
    var r := [s[0]] + tail;
    assert r[1..] == tail;
    forall x
      ensures Lookup(r, x) == if x == k then Some(v) else Lookup(s, x)
    {
      if x == s[0].0 {
        assert Lookup(r, x) == Some(s[0].1);
      }
    }
  }

  /** In a sorted table, a key equal to the first key is not found in the rest. */
  lemma LookupSortedTail(s: SlotList, k: int32)
    requires KeysSorted(s) && s != [] && s[0].0 == k
    ensures Lookup(s[1..], k).None?
  {
    forall j | 0 <= j < |s[1..]|
      ensures s[1..][j].0 != k
    {
      assert s[1..][j] == s[j + 1];
    }
  }

  /** `Dictionary[k] = v`: overwrite the entry in place, or append a new one at the end. */
  function OrderedPut(s: SlotList, k: int32, v: Slot): (r: SlotList)
    requires KeysDistinct(s)
    ensures KeysDistinct(r)
    ensures forall x :: Lookup(r, x) == if x == k then Some(v) else Lookup(s, x)
    ensures Lookup(s, k).None? ==> r == s + [(k, v)]
    ensures |r| == |s| || |r| == |s| + 1
    ensures forall j :: 0 <= j < |s| ==> r[j].0 == s[j].0
  {
    if s == [] then [(k, v)]
    else if s[0].0 == k then
      OrderedPutHead(s, k, v);
      [(k, v)] + s[1..]
    else
      DistinctTail(s);
      var tail := OrderedPut(s[1..], k, v);
      OrderedPutCons(s, k, v, tail);
      [s[0]] + tail
  }

  lemma DistinctTail(s: SlotList)
    requires s != [] && KeysDistinct(s)
    ensures KeysDistinct(s[1..])
  {
    assert forall j :: 0 <= j < |s| - 1 ==> s[1..][j] == s[j + 1];
  }

  /** Overwriting the first entry keeps the keys and their order. */
  lemma OrderedPutHead(s: SlotList, k: int32, v: Slot)
    requires KeysDistinct(s) && s != [] && s[0].0 == k
    ensures var r := [(k, v)] + s[1..];
      KeysDistinct(r)
      && (forall x :: Lookup(r, x) == if x == k then Some(v) else Lookup(s, x))
      && |r| == |s| && (forall j :: 0 <= j < |s| ==> r[j].0 == s[j].0)
  {
    var r := [(k, v)] + s[1..];
    assert r[1..] == s[1..];
    assert forall j :: 0 <= j < |s| ==> r[j].0 == s[j].0;
    assert Lookup(s[1..], k).None? by {
      forall j | 0 <= j < |s[1..]|
        ensures s[1..][j].0 != k
      {
        assert s[1..][j] == s[j + 1];
      }
    }
  }

  /** Putting into the rest of the table, behind a first entry with another key. */
  lemma OrderedPutCons(s: SlotList, k: int32, v: Slot, tail: SlotList)
    requires KeysDistinct(s) && s != [] && s[0].0 != k
    requires KeysDistinct(tail)
    requires forall x :: Lookup(tail, x) == if x == k then Some(v) else Lookup(s[1..], x)
    requires Lookup(s[1..], k).None? ==> tail == s[1..] + [(k, v)]
    requires |tail| == |s| - 1 || |tail| == |s|
    requires forall j :: 0 <= j < |s| - 1 ==> tail[j].0 == s[1..][j].0
    ensures var r := [s[0]] + tail;
      KeysDistinct(r)
      && (forall x :: Lookup(r, x) == if x == k then Some(v) else Lookup(s, x))
      && (Lookup(s, k).None? ==> r == s + [(k, v)])
      && (|r| == |s| || |r| == |s| + 1)
      && (forall j :: 0 <= j < |s| ==> r[j].0 == s[j].0)
  {
    var r := [s[0]] + tail;
    assert r[1..] == tail;
    assert forall j :: 0 <= j < |s| - 1 ==> s[1..][j] == s[j + 1];
    assert Lookup(s, k).None? ==> Lookup(s[1..], k).None?;
    TailAvoidsHead(s, k, v, tail);
    DistinctCons(s[0], tail);
    ConsLookup(s, k, v, tail);
  }

  /** Every key of `tail` is one of the rest of `s` or `k`, so in a distinct `s` none is the first key. */
  lemma TailAvoidsHead(s: SlotList, k: int32, v: Slot, tail: SlotList)
    requires KeysDistinct(s) && s != [] && s[0].0 != k
    requires forall x :: Lookup(tail, x) == if x == k then Some(v) else Lookup(s[1..], x)
    ensures forall j :: 0 <= j < |tail| ==> tail[j].0 != s[0].0
  {
    forall j | 0 <= j < |tail|
      ensures tail[j].0 != s[0].0
    {
      if tail[j].0 != k {
        assert Lookup(tail, tail[j].0).Some?;
        var m :| 0 <= m < |s[1..]| && s[1..][m].0 == tail[j].0;
        assert s[1..][m] == s[m + 1];
      }
    }
  }

  lemma DistinctCons(h: (int32, Slot), tail: SlotList)
    requires KeysDistinct(tail) && forall j :: 0 <= j < |tail| ==> tail[j].0 != h.0
    ensures KeysDistinct([h] + tail)
  {
    var r := [h] + tail;
    forall a, b | 0 <= a < b < |r|
      ensures r[a].0 != r[b].0
    {
      assert r[b] == tail[b - 1];
      if a > 0 {
        assert r[a] == tail[a - 1];
      }
    }
  }

  /** The mutable parser's `SortedList` after registering `props`. */
  function SortedSlots(props: seq<PropertyInfo>): (r: SlotList)
    ensures KeysSorted(r)
  {
    if props == [] then []
    else
      var last := |props| - 1;
      var pre := SortedSlots(props[..last]);
      var p := props[last];
      if p.value.Some? then SortedPut(pre, p.value.value.index, Slot(p.value.value.length, last)) else pre
  }

  /** The immutable parser's `Dictionary` after registering `props`. */
  function OrderedSlots(props: seq<PropertyInfo>): (r: SlotList)
    ensures KeysDistinct(r)
  {
    if props == [] then []
    else
      var last := |props| - 1;
      var pre := OrderedSlots(props[..last]);
      var p := props[last];
      if p.value.Some? then OrderedPut(pre, p.value.value.index, Slot(p.value.value.length, last)) else pre
  }

  /** What a lookup of index `k` should find after registering `props`: the last property with that index, with its length. */
  predicate LastValueSlot(props: seq<PropertyInfo>, k: int32, found: Option<Slot>)
  {
    (found.Some? <==> exists i :: 0 <= i < |props| && HasValueAt(props[i], k))
    && (found.Some? ==>
      var i := found.value.property;
      i < |props| && HasValueAt(props[i], k) && found.value.length == props[i].value.value.length
      && forall j :: i < j < |props| ==> !HasValueAt(props[j], k))
  }

  /** Both index tables hold, for every index, the last property declaring it: a later duplicate index overwrites an earlier one. */
  lemma {:induction false} SlotsLastWins(props: seq<PropertyInfo>, k: int32)
    ensures LastValueSlot(props, k, Lookup(SortedSlots(props), k))
    ensures LastValueSlot(props, k, Lookup(OrderedSlots(props), k))
  {
    if props != [] {
      var last := |props| - 1;
      var pre := props[..last];
      SlotsLastWins(pre, k);
      LastValueSlotStep(props, k, Lookup(SortedSlots(props), k), Lookup(SortedSlots(pre), k));
      LastValueSlotStep(props, k, Lookup(OrderedSlots(props), k), Lookup(OrderedSlots(pre), k));
    }
  }

  lemma LastValueSlotStep(props: seq<PropertyInfo>, k: int32, found: Option<Slot>, before: Option<Slot>)
    requires props != []
    requires LastValueSlot(props[..|props| - 1], k, before)
    requires var p := props[|props| - 1];
      found == if HasValueAt(p, k) then Some(Slot(p.value.value.length, |props| - 1)) else before
    ensures LastValueSlot(props, k, found)
  {
    var last := |props| - 1;
    var pre := props[..last];
    assert forall i :: 0 <= i < last ==> pre[i] == props[i];
  }

  /**
   * `[Value(index, length)]` accepted by its constructor: both index tables
   * map the index to that length and property, unless a later property
   * declares the same index.  `[Value(index)]` is the case `length == 1`.
   */
  lemma DeclaredValueSlot(props: seq<PropertyInfo>, i: nat, index: int32, length: int32)
    requires i < |props| && NewValueAttributeRange(index, length).Success?
    requires props[i].value == Some(NewValueAttributeRange(index, length).value)
    requires forall j :: i < j < |props| ==> !HasValueAt(props[j], index)
    ensures Lookup(SortedSlots(props), index) == Some(Slot(length, i)) && length >= 1
    ensures Lookup(OrderedSlots(props), index) == Some(Slot(length, i)) && index >= 0
  {
    SlotsLastWins(props, index);
  }

  /** The indexes of the value properties, in declaration order. */
  function ValueIndexes(props: seq<PropertyInfo>): seq<int32>
  {
    if props == [] then []
    else
      var last := |props| - 1;
      ValueIndexes(props[..last]) + (if props[last].value.Some? then [props[last].value.value.index] else [])
  }

  function Keys(s: SlotList): seq<int32>
  {
    seq(|s|, j requires 0 <= j < |s| => s[j].0)
  }

  /** With distinct indexes, the immutable parser's table enumerates the value properties in declaration order, not index order. */
  lemma {:induction false} OrderedSlotsFollowDeclaration(props: seq<PropertyInfo>)
    requires forall a, b :: 0 <= a < b < |props| && props[a].value.Some? && props[b].value.Some? ==>
      props[a].value.value.index != props[b].value.value.index
    ensures Keys(OrderedSlots(props)) == ValueIndexes(props)
  {
    if props != [] {
      var last := |props| - 1;
      var pre := props[..last];
      assert forall a :: 0 <= a < last ==> pre[a] == props[a];
      OrderedSlotsFollowDeclaration(pre);
      var p := props[last];
      if p.value.Some? {
        var k := p.value.value.index;
        var slot := Slot(p.value.value.length, last);
        SlotsLastWins(pre, k);
        assert !exists i :: 0 <= i < |pre| && HasValueAt(pre[i], k);
        var before := OrderedSlots(pre);
        assert Lookup(before, k).None?;
        assert OrderedSlots(props) == before + [(k, slot)];
        KeysSnoc(before, (k, slot));
      }
    }
  }

  lemma KeysSnoc(s: SlotList, e: (int32, Slot))
    ensures Keys(s + [e]) == Keys(s) + [e.0]
  {
  }

  /** Every table entry names a property of the list, and one that declares that index. */
  lemma {:induction false} SlotsInRange(props: seq<PropertyInfo>)
    ensures forall j :: 0 <= j < |SortedSlots(props)| ==> SortedSlots(props)[j].1.property < |props|
    ensures forall j :: 0 <= j < |OrderedSlots(props)| ==> OrderedSlots(props)[j].1.property < |props|
  {
    forall j | 0 <= j < |SortedSlots(props)|
      ensures SortedSlots(props)[j].1.property < |props|
    {
      var s := SortedSlots(props);
      LookupFindsFirst(s, j);
      SlotsLastWins(props, s[j].0);
    }
    forall j | 0 <= j < |OrderedSlots(props)|
      ensures OrderedSlots(props)[j].1.property < |props|
    {
      var s := OrderedSlots(props);
      LookupFindsFirst(s, j);
      SlotsLastWins(props, s[j].0);
    }
  }

  /** With distinct keys, looking up the key of entry j finds entry j. */
  lemma {:induction false} LookupFindsFirst(s: SlotList, j: int)
    requires KeysDistinct(s) && 0 <= j < |s|
    ensures Lookup(s, s[j].0) == Some(s[j].1)
  {
    if j > 0 {
      assert s[0].0 != s[j].0;
      assert s[1..][j - 1] == s[j];
      LookupFindsFirst(s[1..], j - 1);
    }
  }

  /** A found entry is one of the table's entries. */
  lemma {:induction false} LookupIsEntry(s: SlotList, k: int32)
    ensures Lookup(s, k).Some? ==> exists j :: 0 <= j < |s| && s[j] == (k, Lookup(s, k).value)
  {
    if s != [] && s[0].0 != k {
      LookupIsEntry(s[1..], k);
      if Lookup(s, k).Some? {
        var j :| 0 <= j < |s[1..]| && s[1..][j] == (k, Lookup(s[1..], k).value);
        assert s[j + 1] == s[1..][j];
      }
    }
  }
}
