/** JSON objects as maps: what the sorted fields of a reader mean. */
module JsonObjects {
  import opened Common
  import opened Json
  import opened JsonRoundTrip

  /** The last of several equal keys wins. */
  function MapOf(fields: seq<Field>): map<Bytes, Json> {
    if fields == [] then map[]
    else MapOf(fields[..|fields| - 1])[fields[|fields| - 1].key := fields[|fields| - 1].value]
  }

  lemma {:induction false} LessTransitive(a: Bytes, b: Bytes, c: Bytes)
    requires Less(a, b) && Less(b, c)
    ensures Less(a, c)
  {
    if a != [] && a[0] == b[0] == c[0] {
      LessTransitive(a[1..], b[1..], c[1..]);
    }
  }

  lemma {:induction false} LessTotal(a: Bytes, b: Bytes)
    ensures Less(a, b) || a == b || Less(b, a)
  {
    if a != [] && b != [] && a[0] == b[0] {
      LessTotal(a[1..], b[1..]);
      assert a == [a[0]] + a[1..] && b == [b[0]] + b[1..];
    }
  }

  /** All keys of a sorted object are smaller than its last one. */
  lemma {:induction false} BelowLast(fields: seq<Field>, i: nat)
    requires Sorted(fields) && i < |fields| - 1
    ensures Less(fields[i].key, fields[|fields| - 1].key)
    decreases |fields| - i
  {
    if i < |fields| - 2 {
      BelowLast(fields, i + 1);
      LessTransitive(fields[i].key, fields[i + 1].key, fields[|fields| - 1].key);
    }
  }

  lemma MapAppend(fields: seq<Field>, last: Field)
    ensures MapOf(fields + [last]) == MapOf(fields)[last.key := last.value]
  {
    assert (fields + [last])[..|fields|] == fields;
  }

  lemma TwoFields(a: Field, b: Field)
    ensures MapOf([a, b]) == map[a.key := a.value][b.key := b.value]
  {
    assert [a, b] == [] + [a] + [b];
    MapAppend([], a);
    MapAppend([] + [a], b);
  }

  lemma {:induction false} MapKeys(fields: seq<Field>, key: Bytes)
    ensures key in MapOf(fields) <==> exists i | 0 <= i < |fields| :: fields[i].key == key
  {
    if fields != [] {
      var n := |fields| - 1;
      MapKeys(fields[..n], key);
      if key in MapOf(fields) && key != fields[n].key {
        var i :| 0 <= i < n && fields[..n][i].key == key;
        assert fields[i].key == key;
      }
      if i :| 0 <= i < n && fields[i].key == key {
        assert fields[..n][i].key == key;
      }
    }
  }

  lemma SortedAppend(fields: seq<Field>, x: Field)
    ensures Sorted(fields + [x]) <==> Sorted(fields) && (fields != [] ==> Less(fields[|fields| - 1].key, x.key))
  {
    hide Less;
    var all := fields + [x];
    if Sorted(all) {
      forall i | 0 <= i < |fields| - 1
        ensures Less(fields[i].key, fields[i + 1].key)
      {
        assert Less(all[i].key, all[i + 1].key);
      }
      assert fields != [] ==> Less(all[|fields| - 1].key, all[|fields|].key);
    }
  }

  lemma MapTwice<K, V>(m: map<K, V>, key: K, a: V, b: V)
    ensures m[key := a][key := b] == m[key := b]
  {
  }

  lemma MapSwap<K, V>(m: map<K, V>, k: K, v: V, l: K, w: V)
    requires k != l
    ensures m[k := v][l := w] == m[l := w][k := v]
  {
  }

  lemma InsertStep(init: seq<Field>, last: Field, key: Bytes, value: Json)
    ensures Insert(init + [last], key, value) ==
              if last.key == key then init + [Field(key, value)]
              else if Less(last.key, key) then init + [last] + [Field(key, value)]
              else Insert(init, key, value) + [last]
  {
    hide Less;
    assert (init + [last])[..|init|] == init;
  }

  /** `r` is `fields` with a new value for one key. */
  ghost predicate Updated(fields: seq<Field>, key: Bytes, value: Json, r: seq<Field>) {
    && Sorted(r) && MapOf(r) == MapOf(fields)[key := value] && r != []
    && r[|r| - 1].key == if fields == [] || Less(fields[|fields| - 1].key, key) then key
                         else fields[|fields| - 1].key
  }

  lemma UpdatedAtEnd(init: seq<Field>, last: Field, key: Bytes, value: Json)
    requires Sorted(init + [last]) && (last.key == key || Less(last.key, key))
    ensures var fields := if last.key == key then init else init + [last];
            Updated(init + [last], key, value, fields + [Field(key, value)])
  {
    hide Less, MapOf, Sorted;
    var x := Field(key, value);
    LessIrreflexive(key);
    SortedAppend(init, last);
    MapAppend(init, last);
    if last.key == key {
      SortedAppend(init, x);
      MapAppend(init, x);
      MapTwice(MapOf(init), key, last.value, value);
    } else {
      SortedAppend(init + [last], x);
      MapAppend(init + [last], x);
    }
  }

  lemma UpdatedBefore(init: seq<Field>, last: Field, key: Bytes, value: Json, r: seq<Field>)
    requires Sorted(init + [last]) && last.key != key && !Less(last.key, key) && Updated(init, key, value, r)
    ensures Updated(init + [last], key, value, r + [last])
  {
    hide Less, MapOf, Sorted;
    LessTotal(last.key, key);
    SortedAppend(init, last);
    SortedAppend(r, last);
    MapAppend(init, last);
    MapAppend(r, last);
    MapSwap(MapOf(init), last.key, last.value, key, value);
  }

  /** An insertion keeps the order and updates the map. */
  lemma {:induction false} InsertIsUpdate(fields: seq<Field>, key: Bytes, value: Json)
    requires Sorted(fields)
    ensures Updated(fields, key, value, Insert(fields, key, value))
    decreases |fields|
  {
    if fields == [] {
      assert [Field(key, value)][..0] == [];
    } else {
      hide *;
      var init, last := fields[..|fields| - 1], fields[|fields| - 1];
      assert fields == init + [last];
      InsertStep(init, last, key, value);
      if last.key == key || Less(last.key, key) {
        UpdatedAtEnd(init, last, key, value);
      } else {
        SortedAppend(init, last);
        InsertIsUpdate(init, key, value);
        UpdatedBefore(init, last, key, value, Insert(init, key, value));
      }
    }
  }

  lemma UpdatedIs(fields: seq<Field>, key: Bytes, value: Json, r: seq<Field>)
    requires Updated(fields, key, value, r)
    ensures Sorted(r) && MapOf(r) == MapOf(fields)[key := value]
  {
  }

  lemma NothingMore(fields: seq<Field>, more: seq<Field>)
    requires more == []
    ensures InsertAll(fields, more) == fields && MapOf(fields) == MapOf(fields) + MapOf(more)
  {
    hide Insert;
    assert MapOf(more) == map[];
  }

  lemma MergeOne<K, V>(m: map<K, V>, key: K, value: V, more: map<K, V>)
    ensures m[key := value] + more == m + (map[key := value] + more)
  {
  }

  lemma InsertAllStep(fields: seq<Field>, more: seq<Field>)
    requires more != []
    ensures InsertAll(fields, more) == InsertAll(Insert(fields, more[0].key, more[0].value), more[1..])
  {
    hide Insert;
  }

  lemma {:induction false} InsertAllIsMerge(fields: seq<Field>, more: seq<Field>)
    requires Sorted(fields)
    ensures Sorted(InsertAll(fields, more))
    ensures MapOf(InsertAll(fields, more)) == MapOf(fields) + MapOf(more)
    decreases |more|
  {
    hide *;
    if more == [] {
      NothingMore(fields, more);
    } else {
      var next := Insert(fields, more[0].key, more[0].value);
      InsertIsUpdate(fields, more[0].key, more[0].value);
      UpdatedIs(fields, more[0].key, more[0].value, next);
      InsertAllIsMerge(next, more[1..]);
      InsertAllStep(fields, more);
      FirstOfMap(more);
      MergeOne(MapOf(fields), more[0].key, more[0].value, MapOf(more[1..]));
    }
  }

  lemma {:induction false} FirstOfMap(fields: seq<Field>)
    requires fields != []
    ensures MapOf(fields) == map[fields[0].key := fields[0].value] + MapOf(fields[1..])
    decreases |fields|
  {
    var n := |fields| - 1;
    if n > 0 {
      FirstOfMap(fields[..n]);
      assert fields[..n][1..] == fields[1..][..n - 1];
      assert fields[1..][n - 1] == fields[n];
    } else {
      assert fields[..0] == [] && fields[1..] == [];
    }
  }

  lemma FirstIsOnce(fields: seq<Field>)
    requires Sorted(fields) && fields != []
    ensures fields[0].key !in MapOf(fields[1..])
  {
    hide MapOf, Less;
    var key := fields[0].key;
    LessIrreflexive(key);
    MapKeys(fields[1..], key);
    forall i | 0 <= i < |fields[1..]|
      ensures fields[1..][i].key != key
    {
      BelowLast(fields[..i + 2], 0);
    }
  }

  /** On a sorted object the first match is the only one. */
  lemma {:induction false} GetIsLookup(fields: seq<Field>, key: Bytes)
    requires Sorted(fields)
    ensures Get(fields, key) == if key in MapOf(fields) then Some(MapOf(fields)[key]) else None
    decreases |fields|
  {
    if fields != [] {
      FirstOfMap(fields);
      FirstIsOnce(fields);
      GetIsLookup(fields[1..], key);
    }
  }

  /** The fields of an object as its reader gives them: sorted, and each key with its last value. */
  lemma NormalIsMap(v: Json, key: Bytes)
    requires v.Obj?
    ensures Normal(v).Obj? && Sorted(Normal(v).fields)
    ensures key in MapOf(Normal(v).fields) <==> key in MapOf(v.fields)
    ensures key in MapOf(v.fields) ==> MapOf(Normal(v).fields)[key] == Normal(MapOf(v.fields)[key])
  {
    hide Normal, InsertAll, MapOf;
    var fields := NormalFields(v, v.fields);
    NormalObject(v);
    InsertAllIsMerge([], fields);
    NoFields();
    NormalMap(v, v.fields, key);
  }

  lemma NormalObject(v: Json)
    requires v.Obj?
    ensures Normal(v) == Obj(InsertAll([], NormalFields(v, v.fields)))
  {
  }

  lemma NoFields()
    ensures MapOf([]) == map[] && Sorted([])
  {
  }

  lemma {:induction false} NormalMap(v: Json, fields: seq<Field>, key: Bytes)
    requires forall i | 0 <= i < |fields| :: fields[i].value < v
    ensures key in MapOf(NormalFields(v, fields)) <==> key in MapOf(fields)
    ensures key in MapOf(fields) ==> MapOf(NormalFields(v, fields))[key] == Normal(MapOf(fields)[key])
    decreases |fields|
  {
    if fields != [] {
      hide Normal;
      var n := |fields| - 1;
      NormalMap(v, fields[..n], key);
      assert NormalFields(v, fields)[..n] == NormalFields(v, fields[..n]);
    }
  }

  /** The first key of a sorted object is the smallest one. */
  lemma FirstIsLeast(fields: seq<Field>, key: Bytes)
    requires Sorted(fields) && key in MapOf(fields)
    ensures fields != [] && (fields[0].key == key || Less(fields[0].key, key))
  {
    MapKeys(fields, key);
    var i :| 0 <= i < |fields| && fields[i].key == key;
    if i > 0 {
      BelowLast(fields[..i + 1], 0);
    }
  }

  /** A sorted object is determined by its map. */
  lemma {:induction false} SortedIsUnique(a: seq<Field>, b: seq<Field>)
    requires Sorted(a) && Sorted(b) && MapOf(a) == MapOf(b)
    ensures a == b
    decreases |a|
  {
    if a != [] {
      SameFirst(a, b);
      RestOfMap(a);
      RestOfMap(b);
      SortedIsUnique(a[1..], b[1..]);
      assert a == [a[0]] + a[1..] && b == [b[0]] + b[1..];
    } else if b != [] {
      NotEmpty(b);
    }
  }

  lemma NotEmpty(fields: seq<Field>)
    requires fields != []
    ensures MapOf(fields) != map[]
  {
    MapKeys(fields, fields[0].key);
  }

  lemma SameFirst(a: seq<Field>, b: seq<Field>)
    requires Sorted(a) && Sorted(b) && MapOf(a) == MapOf(b) && a != []
    ensures b != [] && a[0] == b[0]
  {
    MapKeys(a, a[0].key);
    FirstIsLeast(b, a[0].key);
    MapKeys(b, b[0].key);
    FirstIsLeast(a, b[0].key);
    if a[0].key != b[0].key {
      LessTransitive(a[0].key, b[0].key, a[0].key);
      LessIrreflexive(a[0].key);
    }
    GetIsLookup(a, a[0].key);
    GetIsLookup(b, a[0].key);
  }

  lemma RestOfMap(fields: seq<Field>)
    requires Sorted(fields) && fields != []
    ensures MapOf(fields[1..]) == MapOf(fields) - {fields[0].key}
  {
    hide MapOf, Sorted;
    FirstOfMap(fields);
    FirstIsOnce(fields);
    Unmerge(fields[0].key, fields[0].value, MapOf(fields[1..]));
  }

  lemma Unmerge<K, V>(key: K, value: V, rest: map<K, V>)
    requires key !in rest
    ensures map[key := value] + rest - {key} == rest
  {
  }
}
