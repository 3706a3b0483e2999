/** What a store synchronisation makes of the store table, and why it converges
    to Odoo's answer. */
module StoreSync {
  import opened Results
  import opened Lists
  import opened StoreModel

  datatype OdooStore = OdooStore(id: OdooKey, name: string)

  /** The store table with the unique index on odoo_store_id. */
  datatype Table = Table(stores: map<Id, Aggregate>, links: map<OdooKey, Id>)

  ghost predicate Indexed(t: Table) {
    && (forall o :: o in t.links ==> t.links[o] in t.stores && t.stores[t.links[o]].store.odooId == Some(o))
    && (forall id :: id in t.stores && t.stores[id].store.odooId.Some? ==>
                       t.stores[id].store.odooId.value in t.links && t.links[t.stores[id].store.odooId.value] == id)
  }

  predicate LinkedTo(a: Aggregate, names: map<OdooKey, string>) {
    a.store.odooId.Some? && a.store.odooId.value in names
  }

  predicate Stale(a: Aggregate, names: map<OdooKey, string>) {
    a.store.odooId.Some? && a.store.odooId.value !in names
  }

  /** An existing store after the upsert of `names`. */
  function AfterUpsert(a: Aggregate, names: map<OdooKey, string>, now: int): Aggregate {
    if LinkedTo(a, names) then a.(store := Renamed(a.store, names[a.store.odooId.value], now)) else a
  }

  /** A row that the upsert of `names` adds to t. */
  ghost predicate AddedRow(t: Table, id: Id, a: Aggregate, names: map<OdooKey, string>, now: int, next: Id) {
    && id >= next && LinkedTo(a, names) && a.store.odooId.value !in t.links
    && a == NewStore(a.store.odooId.value, names[a.store.odooId.value], now)
  }

  /** The upsert: existing rows are renamed where Odoo says so, and every Odoo
      id without a row gets a new one. */
  ghost predicate Upserted(t: Table, t': Table, names: map<OdooKey, string>, now: int, next: Id) {
    && (forall id :: id in t.stores ==> id in t'.stores && t'.stores[id] == AfterUpsert(t.stores[id], names, now))
    && (forall id :: id in t'.stores && id !in t.stores ==> AddedRow(t, id, t'.stores[id], names, now, next))
    && names.Keys <= t'.links.Keys
    && Indexed(t')
  }

  /** The whole transaction: as the upsert, and every store linked to an id that
      Odoo no longer reports is gone. */
  ghost predicate Synced(t: Table, t': Table, names: map<OdooKey, string>, now: int, next: Id) {
    && (forall id :: id in t.stores ==> (id in t'.stores <==> !Stale(t.stores[id], names)))
    && (forall id :: id in t.stores && id in t'.stores ==> t'.stores[id] == AfterUpsert(t.stores[id], names, now))
    && (forall id :: id in t'.stores && id !in t.stores ==> AddedRow(t, id, t'.stores[id], names, now, next))
    && names.Keys <= t'.links.Keys
    && Indexed(t')
  }

  // ---- the statements ----

  function OdooIds(odoo: seq<OdooStore>): (r: seq<OdooKey>)
    ensures |r| == |odoo| && forall i: nat :: i < |r| ==> r[i] == odoo[i].id
  {
    seq(|odoo|, i requires 0 <= i < |odoo| => odoo[i].id)
  }

  /** Odoo's answer as a map from id to name. */
  function Names(odoo: seq<OdooStore>): map<OdooKey, string> {
    NamesUpTo(odoo, |odoo|)
  }

  function NamesUpTo(odoo: seq<OdooStore>, n: nat): map<OdooKey, string>
    requires n <= |odoo|
  {
    if n == 0 then map[] else NamesUpTo(odoo, n - 1)[odoo[n - 1].id := odoo[n - 1].name]
  }

  lemma {:induction false} NameKept(odoo: seq<OdooStore>, i: nat, n: nat)
    requires i < n <= |odoo|
    ensures odoo[i].id in NamesUpTo(odoo, n)
    ensures NoRepeatsUpTo(OdooIds(odoo), n) ==> NamesUpTo(odoo, n)[odoo[i].id] == odoo[i].name
  {
    if i < n - 1 {
      NameKept(odoo, i, n - 1);
    }
  }

  lemma {:induction false} NameSource(odoo: seq<OdooStore>, n: nat, id: OdooKey)
    requires n <= |odoo| && id in NamesUpTo(odoo, n)
    ensures exists k :: 0 <= k < n && odoo[k].id == id
  {
    if odoo[n - 1].id != id {
      NameSource(odoo, n - 1, id);
    }
  }

  lemma NewName(odoo: seq<OdooStore>, n: nat)
    requires n < |odoo| && NoRepeatsUpTo(OdooIds(odoo), n)
    ensures odoo[n].id !in NamesUpTo(odoo, n) <==> NoRepeatsUpTo(OdooIds(odoo), n + 1)
  {
    if odoo[n].id in NamesUpTo(odoo, n) {
      NameSource(odoo, n, odoo[n].id);
    } else {
      forall i: nat | i < n ensures OdooIds(odoo)[i] != OdooIds(odoo)[n] {
        NameKept(odoo, i, n);
      }
    }
  }

  /** INSERT ... ON CONFLICT (odoo_store_id) DO UPDATE for one proposed row. */
  function UpsertRow(t: Table, st: OdooStore, now: int, next: Id): Table {
    if st.id in t.links && t.links[st.id] in t.stores
    then var id := t.links[st.id];
         t.(stores := t.stores[id := t.stores[id].(store := Renamed(t.stores[id].store, st.name, now))])
    else Table(t.stores[next := NewStore(st.id, st.name, now)], t.links[st.id := next])
  }

  /** FindStoresNotInOdoo: != ALL of no ids at all holds, so an empty answer finds every linked store. */
  function StoresNotInOdoo(t: Table, ids: set<OdooKey>): set<Id> {
    set id | id in t.stores && t.stores[id].store.odooId.Some? && t.stores[id].store.odooId.value !in ids
  }

  /** DeleteStores; whitelists and memberships cascade. */
  function DeleteStores(t: Table, gone: set<Id>): Table {
    Table(map id | id in t.stores && id !in gone :: t.stores[id],
          map o | o in t.links && t.links[o] !in gone :: t.links[o])
  }

  ghost predicate BelowId(t: Table, next: Id) {
    forall id :: id in t.stores ==> id < next
  }

  lemma UpsertRowIndexed(t: Table, st: OdooStore, now: int, id: Id)
    requires Indexed(t) && BelowId(t, id)
    ensures Indexed(UpsertRow(t, st, now, id)) && BelowId(UpsertRow(t, st, now, id), id + 1)
  {}

  /** Only ids that t or the names so far link are linked. */
  lemma LinkSource(t: Table, mid: Table, names: map<OdooKey, string>, now: int, next: Id, o: OdooKey)
    requires Indexed(t) && Upserted(t, mid, names, now, next)
    ensures o in mid.links <==> o in t.links || o in names
    ensures o in t.links ==> mid.links[o] == t.links[o]
  {
    if o in t.links {
      var k := t.links[o];
      assert k in t.stores && mid.stores[k] == AfterUpsert(t.stores[k], names, now);
    }
    if o in mid.links {
      var k := mid.links[o];
      assert k in t.stores || AddedRow(t, k, mid.stores[k], names, now, next);
    }
  }

  lemma KeptRow(a: Aggregate, names: map<OdooKey, string>, now: int, st: OdooStore)
    requires st.id !in names
    ensures AfterUpsert(a, names, now).store.odooId == a.store.odooId
    ensures AfterUpsert(a, names[st.id := st.name], now) ==
            if a.store.odooId == Some(st.id) then a.(store := Renamed(a.store, st.name, now))
            else AfterUpsert(a, names, now)
  {}

  lemma UpsertRowStep(t: Table, mid: Table, names: map<OdooKey, string>, now: int, next: Id, st: OdooStore, id: Id)
    requires Indexed(t) && Upserted(t, mid, names, now, next) && st.id !in names
    requires BelowId(mid, id) && id >= next
    ensures Upserted(t, UpsertRow(mid, st, now, id), names[st.id := st.name], now, next)
    ensures BelowId(UpsertRow(mid, st, now, id), id + 1)
  {
    var mid' := UpsertRow(mid, st, now, id);
    var names' := names[st.id := st.name];
    UpsertRowIndexed(mid, st, now, id);
    LinkSource(t, mid, names, now, next, st.id);
    forall k | k in t.stores ensures k in mid'.stores && mid'.stores[k] == AfterUpsert(t.stores[k], names', now) {
      KeptRow(t.stores[k], names, now, st);
      assert mid.stores[k] == AfterUpsert(t.stores[k], names, now);
    }
    forall k | k in mid'.stores && k !in t.stores ensures AddedRow(t, k, mid'.stores[k], names', now, next) {
      assert k == id || AddedRow(t, k, mid.stores[k], names, now, next);
    }
  }

  lemma {:induction false} SameSize<T, U>(m: map<T, U>, from: set<T>, to: set<U>)
    requires from <= m.Keys
    requires forall o :: o in from ==> m[o] in to
    requires forall o, o' :: o in from && o' in from && m[o] == m[o'] ==> o == o'
    requires forall id :: id in to ==> exists o :: o in from && m[o] == id
    ensures |from| == |to|
  {
    if |from| == 0 {
      assert from == {};
      assert to == {};
    } else {
      var o :| o in from;
      SameSize(m, from - {o}, to - {m[o]});
    }
  }

  /** As many stores are new as Odoo ids were unknown. */
  lemma InsertedCount(t: Table, t': Table, names: map<OdooKey, string>, now: int, next: Id)
    requires Indexed(t) && Upserted(t, t', names, now, next)
    ensures |t'.stores.Keys - t.stores.Keys| == |names.Keys - t.links.Keys|
  {
    var from, to := names.Keys - t.links.Keys, t'.stores.Keys - t.stores.Keys;
    forall o | o in from ensures o in t'.links && t'.links[o] in to {
      LinkSource(t, t', names, now, next, o);
      UpsertedLinks(t, t', names, now, next, t'.links[o]);
    }
    forall id | id in to ensures exists o :: o in from && t'.links[o] == id {
      assert AddedRow(t, id, t'.stores[id], names, now, next);
      var o := t'.stores[id].store.odooId.value;
      assert o in from && t'.links[o] == id;
    }
    SameSize(t'.links, from, to);
  }

  /** A row that the upsert added is not stale, and no other row changed its link. */
  lemma UpsertedLinks(t: Table, mid: Table, names: map<OdooKey, string>, now: int, next: Id, id: Id)
    requires Upserted(t, mid, names, now, next) && id in mid.stores
    ensures id !in t.stores ==> LinkedTo(mid.stores[id], names)
    ensures id in t.stores ==> mid.stores[id].store.odooId == t.stores[id].store.odooId
  {}

  lemma DeleteStaleStep(t: Table, mid: Table, names: map<OdooKey, string>, now: int, next: Id)
    requires Upserted(t, mid, names, now, next)
    ensures Synced(t, DeleteStores(mid, StoresNotInOdoo(mid, names.Keys)), names, now, next)
  {}

  lemma DeleteStaleKeys(t: Table, mid: Table, names: map<OdooKey, string>, now: int, next: Id)
    requires Upserted(t, mid, names, now, next)
    ensures var t', gone := DeleteStores(mid, StoresNotInOdoo(mid, names.Keys)), StoresNotInOdoo(mid, names.Keys);
            && t'.stores.Keys - t.stores.Keys == mid.stores.Keys - t.stores.Keys
            && t.stores.Keys - t'.stores.Keys == gone
  {
    var gone := StoresNotInOdoo(mid, names.Keys);
    forall id | id in mid.stores && id !in t.stores ensures id !in gone {
      UpsertedLinks(t, mid, names, now, next, id);
    }
    var t' := DeleteStores(mid, gone);
    assert t'.stores.Keys == mid.stores.Keys - gone;
    assert forall id :: id in t.stores ==> id in mid.stores;
    assert gone <= t.stores.Keys;
  }

  // ---- convergence ----

  /** After commit the linked stores carry exactly Odoo's ids, each once, with
      Odoo's names. */
  lemma Converges(t: Table, t': Table, names: map<OdooKey, string>, now: int, next: Id, odooId: OdooKey)
    requires Synced(t, t', names, now, next)
    ensures odooId in t'.links <==> odooId in names
    ensures odooId in names ==>
              && t'.links[odooId] in t'.stores
              && t'.stores[t'.links[odooId]].store.odooId == Some(odooId)
              && t'.stores[t'.links[odooId]].store.name == names[odooId]
              && forall id :: id in t'.stores && t'.stores[id].store.odooId == Some(odooId) ==> id == t'.links[odooId]
  {
    if odooId in t'.links {
      var id := t'.links[odooId];
      assert id in t.stores || AddedRow(t, id, t'.stores[id], names, now, next);
    }
  }

  /** Stores without an Odoo id, and stores whose name Odoo confirms, keep every
      column, updated_at included; a kept store never loses whitelists, fence or flag. */
  lemma KeepsWhatOdooDoesNotOwn(t: Table, t': Table, names: map<OdooKey, string>, now: int, next: Id, id: Id)
    requires Synced(t, t', names, now, next) && id in t.stores
    ensures t.stores[id].store.odooId.None?
            || (LinkedTo(t.stores[id], names) && names[t.stores[id].store.odooId.value] == t.stores[id].store.name) ==>
              id in t'.stores && t'.stores[id] == t.stores[id]
    ensures id in t'.stores && t'.stores[id] != t.stores[id] ==>
              && LinkedTo(t.stores[id], names)
              && t'.stores[id] ==
                 t.stores[id].(store := t.stores[id].store.(name := names[t.stores[id].store.odooId.value],
                 version := now))
  {}

  /** A store that appears is one that Odoo names and that had no row; it has no
      geofence and empty lists, and its switch is on. */
  lemma NewStoreIsBare(t: Table, t': Table, names: map<OdooKey, string>, now: int, next: Id, id: Id)
    requires Synced(t, t', names, now, next) && id in t'.stores && id !in t.stores
    ensures var a := t'.stores[id];
            && a.store.odooId.Some? && a.store.odooId.value in names && a.store.odooId.value !in t.links
            && a.store.name == names[a.store.odooId.value]
            && a.store.fence.latitude == None && a.store.fence.longitude == None && a.store.fence.radius == None
            && a.store.enabled && a.store.version == now && a.ips == [] && a.macs == []
  {}

  ghost function Linked(stores: map<Id, Aggregate>): set<Id> {
    set id | id in stores && stores[id].store.odooId.Some?
  }

  /** Over linked rows: |after| = |before| + inserted - deleted. */
  lemma LinkedCount(t: Table, t': Table, names: map<OdooKey, string>, now: int, next: Id)
    requires Synced(t, t', names, now, next)
    ensures |Linked(t'.stores)| ==
            |Linked(t.stores)| + |t'.stores.Keys - t.stores.Keys| - |t.stores.Keys - t'.stores.Keys|
  {
    var added, dropped := t'.stores.Keys - t.stores.Keys, t.stores.Keys - t'.stores.Keys;
    var before, after := Linked(t.stores), Linked(t'.stores);
    forall id | id in added ensures id in after {
      assert AddedRow(t, id, t'.stores[id], names, now, next);
    }
    forall id | id in t.stores && id in t'.stores ensures id in after <==> id in before {
      KeepsWhatOdooDoesNotOwn(t, t', names, now, next, id);
    }
    assert dropped <= before by {
      forall id | id in dropped ensures Stale(t.stores[id], names) {}
    }
    assert after == (before - dropped) + added;
    assert |before - dropped| == |before| - |dropped|;
  }

  /** A second run on the same answer, whenever it runs, changes nothing. */
  lemma SecondRunChangesNothing(t: Table, t': Table, t'': Table, names: map<OdooKey, string>,
                                now: int, now': int, next: Id, next': Id)
    requires Synced(t, t', names, now, next) && Synced(t', t'', names, now', next')
    ensures t''.stores == t'.stores
  {
    forall id | id in t'.stores ensures id in t''.stores && t''.stores[id] == t'.stores[id] {
      if t'.stores[id].store.odooId.Some? {
        Converges(t, t', names, now, next, t'.stores[id].store.odooId.value);
      }
      KeepsWhatOdooDoesNotOwn(t', t'', names, now', next', id);
    }
    forall id | id in t''.stores ensures id in t'.stores {
      assert id in t'.stores || AddedRow(t', id, t''.stores[id], names, now', next');
    }
  }
}
