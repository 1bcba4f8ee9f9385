/** The segmented hash map and its iterator (util/concurrent_hash_map.go), used one call at a time. */
module HashMap {
  import opened GoBase

  /** The segments of a map share no key: each key lives in the segment its hash selects. */
  class ConcurrentHashMap<V> {
    /** farm.Hash32 with the map's seed: an arbitrary fixed function. */
    const hash: Str -> nat
    const segment: nat
    const childMaps: array<map<Str, Option<V>>>
    /** The plain map that the segments represent. */
    ghost var contents: map<Str, Option<V>>

    ghost predicate Valid()
      reads this, childMaps
    {
      && 0 < segment == childMaps.Length
      && (forall i, key :: 0 <= i < segment && key in childMaps[i] ==>
            SegIndex(key) == i && key in contents && contents[key] == childMaps[i][key])
      && (forall key :: key in contents ==> key in childMaps[SegIndex(key)])
    }

    function SegIndex(key: Str): (i: nat)
      requires segment > 0
      ensures i < segment
    {
      hash(key) % segment
    }

    constructor (segment: nat, hash: Str -> nat)
      requires segment > 0
      ensures Valid() && fresh(childMaps)
      ensures contents == map[]
      ensures this.hash == hash && this.segment == segment
    {
      this.hash := hash;
      this.segment := segment;
      childMaps := new map<Str, Option<V>>[segment](_ => map[]);
      contents := map[];
    }

    /** A stored nil reads as an absent key. */
    method Get(key: Str) returns (value: Option<V>, exists_: bool)
      requires Valid()
      ensures value == if key in contents then contents[key] else None
      ensures exists_ == (key in contents && contents[key].Some?)
    {
      var child := childMaps[SegIndex(key)];
      value := if key in child then child[key] else None;
      exists_ := value.Some?;
    }

    method Set(key: Str, value: Option<V>)
      requires Valid()
      modifies this`contents, childMaps
      ensures Valid()
      ensures contents == old(contents)[key := value]
    {
      var i := SegIndex(key);
      childMaps[i] := childMaps[i][key := value];
      contents := contents[key := value];
    }

    /** The rows of keys start with one empty row a segment, because the slice is created with
        that length and then appended to. */
    method NewIterator() returns (it: Iterator<V>)
      requires Valid()
      ensures fresh(it) && it.Valid() && it.cm == this
      ensures NoDuplicates(it.Remaining())
      ensures forall key :: key in it.Remaining() <==> key in contents
    {
      hide Flatten;
      var keys: seq<seq<Str>> := seq(childMaps.Length, _ => []);
      EmptyRows(keys);
      for i := 0 to childMaps.Length
        invariant NoDuplicates(Flatten(keys))
        invariant forall key :: key in Flatten(keys) <==> key in contents && SegIndex(key) < i
      {
        var rowKeys := KeysOf(childMaps[i]);
        FlattenAppend(keys, rowKeys);
        NoDuplicatesConcat(Flatten(keys), rowKeys);
        keys := keys + [rowKeys];
      }
      it := new Iterator(this, keys);
    }
  }

  /** maps.Keys: every key once, in no particular order. */
  method KeysOf<V>(m: map<Str, V>) returns (keys: seq<Str>)
    ensures NoDuplicates(keys)
    ensures forall key :: key in keys <==> key in m
  {
    keys := [];
    var rest := m.Keys;
    while rest != {}
      invariant rest <= m.Keys && NoDuplicates(keys)
      invariant forall key :: key in keys <==> key in m.Keys - rest
      decreases rest
    {
      var key :| key in rest;
      NoDuplicatesConcat(keys, [key]);
      keys := keys + [key];
      rest := rest - {key};
    }
  }

  function Flatten(rows: seq<seq<Str>>): seq<Str> {
    if rows == [] then [] else rows[0] + Flatten(rows[1..])
  }

  lemma {:induction false} EmptyRows(rows: seq<seq<Str>>)
    requires forall i :: 0 <= i < |rows| ==> rows[i] == []
    ensures Flatten(rows) == []
  {
    if rows != [] { EmptyRows(rows[1..]); }
  }

  lemma {:induction false} FlattenAppend(rows: seq<seq<Str>>, row: seq<Str>)
    ensures Flatten(rows + [row]) == Flatten(rows) + row
  {
    if rows == [] {
      assert rows + [row] == [row];
    } else {
      FlattenAppend(rows[1..], row);
      assert (rows + [row])[1..] == rows[1..] + [row];
    }
  }

  datatype MapEntry<V> = MapEntry(key: Str, value: Option<V>)

  /** The keys of the rows from a position on. */
  function KeysFrom(keys: seq<seq<Str>>, row: nat, col: nat): seq<Str>
    requires row <= |keys| && (row < |keys| ==> col <= |keys[row]|)
  {
    if row == |keys| then [] else keys[row][col..] + Flatten(keys[row + 1..])
  }

  lemma NextPosition(keys: seq<seq<Str>>, row: nat, col: nat)
    requires row < |keys| && col < |keys[row]|
    ensures KeysFrom(keys, row, col) != []
    ensures KeysFrom(keys, row, col)[0] == keys[row][col]
    ensures KeysFrom(keys, row, col)[1..] ==
              if col + 1 == |keys[row]| then KeysFrom(keys, row + 1, 0) else KeysFrom(keys, row, col + 1)
  {
    NextRow(keys, row);
    hide Flatten;
    var here, later := keys[row][col..], Flatten(keys[row + 1..]);
    assert here == [keys[row][col]] + keys[row][col + 1..];
    assert (here + later)[1..] == here[1..] + later;
  }

  lemma NoRows(keys: seq<seq<Str>>)
    ensures KeysFrom(keys, |keys|, 0) == []
  {
  }

  lemma EmptyRow(keys: seq<seq<Str>>, row: nat)
    requires row < |keys| && keys[row] == []
    ensures KeysFrom(keys, row, 0) == KeysFrom(keys, row + 1, 0)
  {
    NextRow(keys, row);
    assert [] + Flatten(keys[row + 1..]) == Flatten(keys[row + 1..]);
  }

  lemma NextRow(keys: seq<seq<Str>>, row: nat)
    requires row < |keys|
    ensures Flatten(keys[row + 1..]) == KeysFrom(keys, row + 1, 0)
  {
    if row + 1 < |keys| {
      assert keys[row + 1..][1..] == keys[row + 2..];
    }
  }

  class Iterator<V> {
    const cm: ConcurrentHashMap<V>
    const keys: seq<seq<Str>>
    var rowIndex: nat
    var colIndex: nat

    ghost predicate Valid()
      reads this
    {
      && rowIndex <= |keys|
      && (colIndex == 0 || (rowIndex < |keys| && colIndex < |keys[rowIndex]|))
    }

    /** The keys still to come, in the order in which they will come. */
    ghost function Remaining(): seq<Str>
      reads this
      requires Valid()
    {
      KeysFrom(keys, rowIndex, colIndex)
    }

    constructor (cm: ConcurrentHashMap<V>, keys: seq<seq<Str>>)
      ensures Valid() && this.cm == cm && this.keys == keys
      ensures Remaining() == Flatten(keys)
    {
      this.cm := cm;
      this.keys := keys;
      rowIndex := 0;
      colIndex := 0;
    }

    /** Yields the first remaining key with its current value; nil once and for all when none remains. */
    method Next() returns (entry: Option<MapEntry<V>>)
      requires Valid() && cm.Valid()
      modifies this
      ensures Valid()
      ensures old(Remaining()) == [] ==> entry == None && Remaining() == []
      ensures old(Remaining()) != [] ==>
                var key := old(Remaining())[0];
                && Remaining() == old(Remaining())[1..]
                && entry == Some(Entry(cm.contents, key))
      decreases |keys| - rowIndex
    {
      hide KeysFrom;
      if rowIndex >= |keys| {
        NoRows(keys);
        return None;
      }
      if |keys[rowIndex]| == 0 {
        EmptyRow(keys, rowIndex);
        rowIndex := rowIndex + 1;
        entry := Next();
        return;
      }
      NextPosition(keys, rowIndex, colIndex);
      var key := keys[rowIndex][colIndex];
      var value, _ := cm.Get(key);
      if colIndex >= |keys[rowIndex]| - 1 {
        rowIndex := rowIndex + 1;
        colIndex := 0;
      } else {
        colIndex := colIndex + 1;
      }
      entry := Some(MapEntry(key, value));
    }
  }

  /** Calling Next until it returns nil visits every key exactly once with its value. */
  method Drain<V>(cm: ConcurrentHashMap<V>) returns (entries: seq<MapEntry<V>>)
    requires cm.Valid()
    ensures EachOnce(entries, cm.contents)
  {
    var it := cm.NewIterator();
    ghost var all := it.Remaining();
    entries := Exhaust(it);
    CountNoDuplicates(all, cm.contents.Keys);
    EntriesEachOnce(cm.contents, all, entries);
  }

  method Exhaust<V>(it: Iterator<V>) returns (entries: seq<MapEntry<V>>)
    requires it.Valid() && it.cm.Valid()
    modifies it
    ensures it.cm.contents == old(it.cm.contents)
    ensures it.Valid() && it.Remaining() == []
    ensures |entries| == |old(it.Remaining())|
    ensures forall i :: 0 <= i < |entries| ==>
              entries[i] == Entry(old(it.cm.contents), old(it.Remaining())[i])
  {
    ghost var m, all := it.cm.contents, it.Remaining();
    entries := [];
    var entry := it.Next();
    while entry.Some?
      invariant it.Valid() && it.cm.Valid() && it.cm.contents == m
      invariant Walked(m, all, entries, entry, it.Remaining())
      decreases |all| - |entries|
    {
      ghost var entries0, entry0, rest0 := entries, entry, it.Remaining();
      entries := entries + [entry.value];
      entry := it.Next();
      WalkStep(m, all, entries0, entry0, rest0, entry, it.Remaining());
    }
  }

  ghost predicate Walked<V>(m: map<Str, Option<V>>, all: seq<Str>, entries: seq<MapEntry<V>>,
                            entry: Option<MapEntry<V>>, rest: seq<Str>)
  {
    && |entries| <= |all|
    && (forall i :: 0 <= i < |entries| ==> entries[i] == Entry(m, all[i]))
    && (entry == None ==> |entries| == |all| && rest == [])
    && (entry.Some? ==>
          && |entries| < |all|
          && entry.value == Entry(m, all[|entries|])
          && rest == all[|entries| + 1..])
  }

  lemma WalkStep<V>(m: map<Str, Option<V>>, all: seq<Str>, entries: seq<MapEntry<V>>,
                    entry: Option<MapEntry<V>>, rest: seq<Str>,
                    entry': Option<MapEntry<V>>, rest': seq<Str>)
    requires Walked(m, all, entries, entry, rest) && entry.Some?
    requires rest == [] ==> entry' == None && rest' == []
    requires rest != [] ==> entry' == Some(Entry(m, rest[0])) && rest' == rest[1..]
    ensures Walked(m, all, entries + [entry.value], entry', rest')
  {
    if rest != [] {
      assert rest[0] == all[|entries| + 1] && rest[1..] == all[|entries| + 2..];
    }
  }

  /** The entries are the bindings of the map, each key once. */
  ghost predicate EachOnce<V>(entries: seq<MapEntry<V>>, m: map<Str, Option<V>>) {
    && |entries| == |m|
    && (forall i, j :: 0 <= i < j < |entries| ==> entries[i].key != entries[j].key)
    && (forall i :: 0 <= i < |entries| ==> entries[i].key in m && entries[i].value == m[entries[i].key])
  }

  lemma EntriesEachOnce<V>(m: map<Str, Option<V>>, keys: seq<Str>, entries: seq<MapEntry<V>>)
    requires NoDuplicates(keys) && |keys| == |m.Keys| == |entries|
    requires forall key :: key in keys <==> key in m
    requires forall i :: 0 <= i < |entries| ==> entries[i] == Entry(m, keys[i])
    ensures EachOnce(entries, m)
  {
    forall i | 0 <= i < |keys| ensures keys[i] in m {
      assert keys[i] in keys;
    }
  }

  ghost function Entry<V>(m: map<Str, Option<V>>, key: Str): MapEntry<V> {
    MapEntry(key, if key in m then m[key] else None)
  }

  lemma {:induction false} CountNoDuplicates(s: seq<Str>, keys: set<Str>)
    requires NoDuplicates(s)
    requires forall key :: key in s <==> key in keys
    ensures |s| == |keys|
  {
    if s == [] {
      assert keys == {};
    } else {
      CountNoDuplicates(s[1..], keys - {s[0]});
    }
  }
}
