/** A store together with its whitelists, and what the writes of the stores
    service make of it. `version` is store.updated_at, the optimistic-lock
    token of the row and of both whitelist tables. */
module StoreModel {
  import opened Results
  import opened Whitelist

  type Id = int
  type Ip = nat
  type Mac = nat

  /** A store's number in Odoo; odoo_store_id keeps its decimal text. */
  datatype OdooKey = OdooKey(number: int)

  datatype Fence = Fence(latitude: Option<real>, longitude: Option<real>, radius: Option<int>)

  datatype Store = Store(odooId: Option<OdooKey>, name: string, fence: Fence, enabled: bool, version: int)

  datatype Aggregate = Aggregate(store: Store, ips: seq<Entry<Ip>>, macs: seq<Entry<Mac>>)

  /** A PATCH body: an absent fence field or list is left unchanged. */
  datatype Patch = Patch(fence: Fence, ips: Option<seq<Ip>>, macs: Option<seq<Mac>>)

  function Coalesce<T>(x: Option<T>, y: Option<T>): Option<T> {
    if x.Some? then x else y
  }

  /** UpdateStoreGeofence's SET list. */
  function Fenced(store: Store, fence: Fence, now: int): Store {
    store.(fence := Fence(Coalesce(fence.latitude, store.fence.latitude),
                          Coalesce(fence.longitude, store.fence.longitude),
                          Coalesce(fence.radius, store.fence.radius)),
    version := now)
  }

  const NO_FENCE := Fence(None, None, None)

  function ReplacedIf<V(==)>(list: seq<Entry<V>>, values: Option<seq<V>>, next: nat): seq<Entry<V>> {
    if values.Some? then Replaced(list, values.value, next) else list
  }

  /** The whole effect of an accepted UpdateStore. */
  function Patched(a: Aggregate, p: Patch, now: int, nextIp: nat, nextMac: nat): Aggregate {
    Aggregate(Fenced(a.store, p.fence, now), ReplacedIf(a.ips, p.ips, nextIp), ReplacedIf(a.macs, p.macs, nextMac))
  }

  /** Some listed value is in the whitelist. */
  predicate AnyListed(a: Aggregate, ips: seq<Ip>, macs: seq<Mac>) {
    RowsIn(a.ips, ips) != {} || RowsIn(a.macs, macs) != {}
  }

  /** The whole effect of an accepted DeleteWifiWhitelistEntries. */
  function Removed(a: Aggregate, ips: seq<Ip>, macs: seq<Mac>, now: int): Aggregate {
    if AnyListed(a, ips, macs)
    then Aggregate(a.store.(version := now), Without(a.ips, RowsIn(a.ips, ips)), Without(a.macs, RowsIn(a.macs, macs)))
    else a
  }

  function Toggled(a: Aggregate, enabled: bool, now: int): Aggregate {
    a.(store := a.store.(enabled := enabled, version := now))
  }

  /** UpsertStores' ON CONFLICT branch: the version moves only with the name. */
  function Renamed(store: Store, name: string, now: int): Store {
    if store.name == name then store else store.(name := name, version := now)
  }

  /** UpsertStores' INSERT branch, with the column defaults. */
  function NewStore(odooId: OdooKey, name: string, now: int): Aggregate {
    Aggregate(Store(Some(odooId), name, NO_FENCE, true, now), [], [])
  }

  // ---- what these writes mean ----

  /** An accepted PATCH: submitted fence fields and lists replace the old ones,
      absent ones stay, and identity, name and switch are not the admin's to change. */
  lemma PatchMeaning(a: Aggregate, p: Patch, now: int, nextIp: nat, nextMac: nat)
    requires Ordered(a.ips, nextIp) && Ordered(a.macs, nextMac)
    ensures var b, was, f := Patched(a, p, now, nextIp, nextMac), a.store.fence, p.fence;
            && b.store.odooId == a.store.odooId && b.store.name == a.store.name && b.store.enabled == a.store.enabled
            && b.store.version == now
            && b.store.fence.latitude == (if f.latitude.Some? then f.latitude else was.latitude)
            && b.store.fence.longitude == (if f.longitude.Some? then f.longitude else was.longitude)
            && b.store.fence.radius == (if f.radius.Some? then f.radius else was.radius)
            && (if p.ips.Some? then forall v :: v in Values(b.ips) <==> v in p.ips.value else b.ips == a.ips)
            && (if p.macs.Some? then forall v :: v in Values(b.macs) <==> v in p.macs.value else b.macs == a.macs)
  {
    if p.ips.Some? {
      ReplaceIsExactAndMinimal(a.ips, p.ips.value, nextIp);
    }
    if p.macs.Some? {
      ReplaceIsExactAndMinimal(a.macs, p.macs.value, nextMac);
    }
  }

  /** An accepted entry deletion: exactly the entries with a listed value go, in
      either list; if there is none the store is untouched, otherwise only its
      version moves. */
  lemma RemovalMeaning(a: Aggregate, ips: seq<Ip>, macs: seq<Mac>, now: int, nextIp: nat, nextMac: nat)
    requires Ordered(a.ips, nextIp) && Ordered(a.macs, nextMac)
    ensures var b := Removed(a, ips, macs, now);
            && b.ips == Filter(a.ips, ips, false) && b.macs == Filter(a.macs, macs, false)
            && if NoneListed(a.ips, ips) && NoneListed(a.macs, macs) then b == a
               else b.store == a.store.(version := now)
  {
    RowsByValue(a.ips, ips, nextIp);
    RowsByValue(a.macs, macs, nextMac);
    NoRowsListed(a.ips, ips);
    NoRowsListed(a.macs, macs);
    WithoutNothing(a.ips);
    WithoutNothing(a.macs);
  }

  /** A toggle sets the switch and moves the version; identity, name, fence and
      both lists stay. */
  lemma ToggleMeaning(a: Aggregate, enabled: bool, now: int)
    ensures var b := Toggled(a, enabled, now);
            && b.store.enabled == enabled && b.store.version == now
            && b.store.odooId == a.store.odooId && b.store.name == a.store.name && b.store.fence == a.store.fence
            && b.ips == a.ips && b.macs == a.macs
  {}

  predicate NoneListed<V(==)>(list: seq<Entry<V>>, values: seq<V>) {
    forall i :: 0 <= i < |list| ==> list[i].value !in values
  }

  lemma NoRowsListed<V>(list: seq<Entry<V>>, values: seq<V>)
    ensures NoneListed(list, values) <==> RowsIn(list, values) == {}
  {
    forall i | 0 <= i < |list| && list[i].value in values ensures list[i].row in RowsIn(list, values) {}
  }
}
