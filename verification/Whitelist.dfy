/** A store's wifi whitelist: the rows of one store in store_wifi_ip (or
    store_wifi_mac) in id order, which is the order every listing uses. */
module Whitelist {
  datatype Entry<V> = Entry(row: nat, value: V)

  /** Serial ids grow, no value is listed twice (UNIQUE (store_id, value)), and
      `next` is above every id in use. */
  predicate Ordered<V(==)>(list: seq<Entry<V>>, next: nat) {
    && (forall i, j :: 0 <= i < j < |list| ==> list[i].row < list[j].row && list[i].value != list[j].value)
    && (forall i :: 0 <= i < |list| ==> list[i].row < next)
  }

  function Values<V>(list: seq<Entry<V>>): (r: seq<V>)
    ensures |r| == |list|
  {
    seq(|list|, i requires 0 <= i < |list| => list[i].value)
  }

  /** The rows that a DELETE leaves. */
  function Without<V(==)>(list: seq<Entry<V>>, rows: set<nat>): seq<Entry<V>> {
    if list == [] then []
    else (if list[0].row in rows then [] else [list[0]]) + Without(list[1..], rows)
  }

  /** WHERE value != ALL(keep). */
  function RowsNotIn<V(==)>(list: seq<Entry<V>>, keep: seq<V>): set<nat> {
    set i | 0 <= i < |list| && list[i].value !in keep :: list[i].row
  }

  /** WHERE value = ANY(values). */
  function RowsIn<V(==)>(list: seq<Entry<V>>, values: seq<V>): set<nat> {
    set i | 0 <= i < |list| && list[i].value in values :: list[i].row
  }

  /** INSERT ... SELECT unnest(values) ON CONFLICT DO NOTHING onto the values
      already `present`; a conflicting value uses up its serial id too. */
  function Inserted<V(==)>(present: seq<V>, values: seq<V>, next: nat): seq<Entry<V>>
    decreases |values|
  {
    if values == [] then []
    else if values[0] in present then Inserted(present, values[1..], next + 1)
    else [Entry(next, values[0])] + Inserted(present + [values[0]], values[1..], next + 1)
  }

  /** Delete what is no longer submitted, then insert what is new. */
  function Replaced<V(==)>(list: seq<Entry<V>>, values: seq<V>, next: nat): seq<Entry<V>> {
    var kept := Without(list, RowsNotIn(list, values));
    kept + Inserted(Values(kept), values, next)
  }

  // ---- what the deletes keep ----

  /** The entries whose value is (`inside`) or is not among `values`, in order. */
  ghost function Filter<V>(list: seq<Entry<V>>, values: seq<V>, inside: bool): seq<Entry<V>> {
    if list == [] then []
    else (if (list[0].value in values) == inside then [list[0]] else []) + Filter(list[1..], values, inside)
  }

  lemma {:induction false} WithoutIsFilter<V>(list: seq<Entry<V>>, rows: set<nat>, values: seq<V>, inside: bool)
    requires forall i :: 0 <= i < |list| ==> (list[i].row in rows <==> (list[i].value in values) != inside)
    ensures Without(list, rows) == Filter(list, values, inside)
  {
    if list != [] {
      assert forall i :: 0 <= i < |list[1..]| ==> list[1..][i] == list[i + 1];
      WithoutIsFilter(list[1..], rows, values, inside);
    }
  }

  /** Row ids are unique, so deleting by value is filtering by value. */
  lemma RowsByValue<V>(list: seq<Entry<V>>, values: seq<V>, next: nat)
    requires Ordered(list, next)
    ensures Without(list, RowsNotIn(list, values)) == Filter(list, values, true)
    ensures Without(list, RowsIn(list, values)) == Filter(list, values, false)
  {
    WithoutIsFilter(list, RowsNotIn(list, values), values, true);
    WithoutIsFilter(list, RowsIn(list, values), values, false);
  }

  lemma {:induction false} FilterMembers<V>(list: seq<Entry<V>>, values: seq<V>, inside: bool, e: Entry<V>)
    ensures e in Filter(list, values, inside) <==> e in list && (e.value in values) == inside
  {
    if list != [] {
      FilterMembers(list[1..], values, inside, e);
      assert list == [list[0]] + list[1..];
    }
  }

  lemma {:induction false} FilterOrdered<V>(list: seq<Entry<V>>, values: seq<V>, inside: bool, next: nat)
    requires Ordered(list, next)
    ensures Ordered(Filter(list, values, inside), next)
  {
    if list != [] {
      var rest := list[1..];
      assert Ordered(rest, next) by {
        assert forall i :: 0 <= i < |rest| ==> rest[i] == list[i + 1];
      }
      FilterOrdered(rest, values, inside, next);
      forall e | e in Filter(rest, values, inside) ensures list[0].row < e.row && list[0].value != e.value {
        FilterMembers(rest, values, inside, e);
      }
      PrependOrdered(list[0], Filter(rest, values, inside), next);
    }
  }

  lemma PrependOrdered<V>(e: Entry<V>, list: seq<Entry<V>>, next: nat)
    requires Ordered(list, next) && e.row < next
    requires forall x :: x in list ==> e.row < x.row && e.value != x.value
    ensures Ordered([e] + list, next) && [] + list == list
  {}

  // ---- what the insert adds ----

  /** The first occurrences in `values` of the values not in `present`. */
  ghost function Fresh<V>(present: seq<V>, values: seq<V>): seq<V>
    decreases |values|
  {
    if values == [] then []
    else if values[0] in present then Fresh(present, values[1..])
    else [values[0]] + Fresh(present + [values[0]], values[1..])
  }

  lemma {:induction false} InsertedValues<V>(present: seq<V>, values: seq<V>, next: nat)
    ensures Values(Inserted(present, values, next)) == Fresh(present, values)
    decreases |values|
  {
    if values != [] {
      if values[0] in present {
        InsertedValues(present, values[1..], next + 1);
      } else {
        InsertedValues(present + [values[0]], values[1..], next + 1);
        var rest := Inserted(present + [values[0]], values[1..], next + 1);
        assert Values([Entry(next, values[0])] + rest) == [values[0]] + Values(rest);
      }
    }
  }

  lemma {:induction false} FreshMembers<V>(present: seq<V>, values: seq<V>, v: V)
    ensures v in Fresh(present, values) <==> v in values && v !in present
    decreases |values|
  {
    if values != [] {
      assert values == [values[0]] + values[1..];
      if values[0] in present {
        FreshMembers(present, values[1..], v);
      } else {
        FreshMembers(present + [values[0]], values[1..], v);
      }
    }
  }

  lemma {:induction false} InsertedOrdered<V>(present: seq<V>, values: seq<V>, next: nat)
    ensures var r := Inserted(present, values, next);
            Ordered(r, next + |values|) && forall i :: 0 <= i < |r| ==> r[i].row >= next && r[i].value !in present
    decreases |values|
  {
    if values != [] {
      if values[0] in present {
        InsertedOrdered(present, values[1..], next + 1);
      } else {
        InsertedOrdered(present + [values[0]], values[1..], next + 1);
      }
    }
  }

  // ---- the whole-set replace ----

  /** Afterwards the listing is the kept rows (old ids, old order), followed by
      new rows, above every old id, for the submitted values that were missing.
      The values are exactly the submitted ones and nothing is listed twice. */
  lemma ReplaceIsExactAndMinimal<V>(list: seq<Entry<V>>, values: seq<V>, next: nat)
    requires Ordered(list, next)
    ensures var r := Replaced(list, values, next);
            && Ordered(r, next + |values|)
            && (exists added: seq<Entry<V>> :: r == Filter(list, values, true) + added
                                               && Values(added) == Fresh(Values(list), values)
                                               && forall i :: 0 <= i < |added| ==> added[i].row >= next)
            && forall v :: v in Values(r) <==> v in values
  {
    var kept := Without(list, RowsNotIn(list, values));
    var added := Inserted(Values(kept), values, next);
    RowsByValue(list, values, next);
    AddedRows(list, values, next);
    FilterOrdered(list, values, true, next);
    AppendOrdered(kept, added, next, next + |values|);
    ReplacedValues(list, values, next);
  }

  lemma AddedRows<V>(list: seq<Entry<V>>, values: seq<V>, next: nat)
    requires Ordered(list, next)
    ensures var added := Inserted(Values(Without(list, RowsNotIn(list, values))), values, next);
            && Values(added) == Fresh(Values(list), values) && Ordered(added, next + |values|)
            && forall i :: 0 <= i < |added| ==>
                             added[i].row >= next && added[i].value !in Values(Without(list, RowsNotIn(list, values)))
  {
    var kept := Without(list, RowsNotIn(list, values));
    InsertedValues(Values(kept), values, next);
    InsertedOrdered(Values(kept), values, next);
    forall v ensures v in Values(kept) <==> v in Values(list) && v in values {
      KeptValues(list, values, next, v);
    }
    FreshAgrees(Values(kept), Values(list), values);
  }

  lemma ReplacedValues<V>(list: seq<Entry<V>>, values: seq<V>, next: nat)
    requires Ordered(list, next)
    ensures forall v :: v in Values(Replaced(list, values, next)) <==> v in values
  {
    var kept := Without(list, RowsNotIn(list, values));
    var added := Inserted(Values(kept), values, next);
    InsertedValues(Values(kept), values, next);
    assert Values(kept + added) == Values(kept) + Values(added);
    forall v ensures v in Values(kept + added) <==> v in values {
      KeptValues(list, values, next, v);
      FreshMembers(Values(kept), values, v);
    }
  }

  lemma AppendOrdered<V>(a: seq<Entry<V>>, b: seq<Entry<V>>, next: nat, next': nat)
    requires Ordered(a, next) && Ordered(b, next') && next <= next'
    requires forall i :: 0 <= i < |b| ==> b[i].row >= next && b[i].value !in Values(a)
    ensures Ordered(a + b, next')
  {
    var r := a + b;
    forall i, j | 0 <= i < j < |r| ensures r[i].row < r[j].row && r[i].value != r[j].value {
      if i < |a| <= j {
        assert Values(a)[i] == r[i].value;
      }
    }
  }

  lemma KeptValues<V>(list: seq<Entry<V>>, values: seq<V>, next: nat, v: V)
    requires Ordered(list, next)
    ensures v in Values(Without(list, RowsNotIn(list, values))) <==> v in Values(list) && v in values
  {
    var kept := Without(list, RowsNotIn(list, values));
    RowsByValue(list, values, next);
    if v in Values(kept) {
      var i :| 0 <= i < |kept| && Values(kept)[i] == v;
      FilterMembers(list, values, true, kept[i]);
      var j :| 0 <= j < |list| && list[j] == kept[i];
      assert Values(list)[j] == v;
    }
    if v in Values(list) && v in values {
      var i :| 0 <= i < |list| && Values(list)[i] == v;
      FilterMembers(list, values, true, list[i]);
      var j :| 0 <= j < |kept| && kept[j] == list[i];
      assert Values(kept)[j] == v;
    }
  }

  /** Fresh only asks which of `values` are present. */
  lemma {:induction false} FreshAgrees<V>(a: seq<V>, b: seq<V>, values: seq<V>)
    requires forall v :: v in values ==> (v in a <==> v in b)
    ensures Fresh(a, values) == Fresh(b, values)
    decreases |values|
  {
    if values != [] {
      assert values == [values[0]] + values[1..];
      if values[0] in a {
        FreshAgrees(a, b, values[1..]);
      } else {
        FreshAgrees(a + [values[0]], b + [values[0]], values[1..]);
      }
    }
  }

  /** Submitting the current listing again changes no row. */
  lemma ReplaceBySelf<V>(list: seq<Entry<V>>, next: nat)
    requires Ordered(list, next)
    ensures Replaced(list, Values(list), next) == list
  {
    assert RowsNotIn(list, Values(list)) == {} by {
      forall i | 0 <= i < |list| ensures list[i].value in Values(list) {
        assert Values(list)[i] == list[i].value;
      }
    }
    WithoutNothing(list);
    NothingToInsert(Values(list), Values(list), next);
  }

  lemma {:induction false} WithoutNothing<V>(list: seq<Entry<V>>)
    ensures Without(list, {}) == list
  {
    if list != [] {
      WithoutNothing(list[1..]);
    }
  }

  lemma {:induction false} NothingToInsert<V>(present: seq<V>, values: seq<V>, next: nat)
    requires forall v :: v in values ==> v in present
    ensures Inserted(present, values, next) == []
  {
    if values != [] {
      NothingToInsert(present, values[1..], next + 1);
    }
  }

  lemma RemovalOrdered<V>(list: seq<Entry<V>>, values: seq<V>, next: nat)
    requires Ordered(list, next)
    ensures Ordered(Without(list, RowsIn(list, values)), next)
  {
    RowsByValue(list, values, next);
    FilterOrdered(list, values, false, next);
  }
}
