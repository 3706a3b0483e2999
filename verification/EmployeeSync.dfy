/** The employee sync: Odoo is asked about the ids in batches, names and emails
    of known employees are overwritten, and their store memberships are replaced.
    Odoo is a directory of employees; a fetch answers with the asked ones that it
    has, in any order. */
module EmployeeSync {
  import opened Results
  import opened StoreModel
  import opened PairTable
  import SyncGuard

  const BATCH_SIZE: nat := 50

  datatype OdooEmployee = OdooEmployee(id: nat, fullName: string, email: string, stores: seq<OdooKey>)

  /** A local employee; the key of its row here is odoo_employee_id. */
  datatype Person = Person(id: nat, fullName: string, email: string)

  type Directory = map<nat, OdooEmployee>

  type Fetch = seq<nat> -> seq<OdooEmployee>

  /** What goes wrong: the numbers of the batches whose fetch, upsert
      or store lookup fails if it is made, and the employees whose membership
      transaction fails. */
  datatype Faults = Faults(fetch: set<nat>, upsert: set<nat>, resolve: set<nat>, replace: set<nat>)

  datatype SyncStart = InProgress | LookupFailed | Started

  const NO_FAULTS := Faults({}, {}, {}, {})

  /** Each asked id that Odoo knows, once. */
  ghost predicate Answers(directory: Directory, batch: seq<nat>, found: seq<OdooEmployee>) {
    && (forall i: nat :: i < |found| ==>
                           found[i].id in batch && found[i].id in directory && directory[found[i].id] == found[i])
    && (forall i: nat, j: nat :: i < j < |found| ==> found[i].id != found[j].id)
    && forall id :: id in batch && id in directory ==> Has(found, id)
  }

  predicate Has(found: seq<OdooEmployee>, id: nat) {
    exists i: nat :: i < |found| && found[i].id == id
  }

  ghost predicate Truthful(directory: Directory, fetch: Fetch) {
    forall batch :: Answers(directory, batch, fetch(batch))
  }

  // ---- the effect of a sync, by the set of ids it has dealt with ----

  /** The ids among the first n. */
  function Asked(ids: seq<nat>, n: nat): set<nat>
    requires n <= |ids|
  {
    set i | 0 <= i < n :: ids[i]
  }

  /** Positions before batch b. */
  function Bound(ids: seq<nat>, size: nat, b: nat): (r: nat)
    ensures r <= |ids|
  {
    if b * size < |ids| then b * size else |ids|
  }

  function Batch(ids: seq<nat>, size: nat, b: nat): seq<nat>
    requires Bound(ids, size, b) <= Bound(ids, size, b + 1)
  {
    ids[Bound(ids, size, b)..Bound(ids, size, b + 1)]
  }

  predicate Knows(directory: Directory, batch: seq<nat>) {
    exists i: nat :: i < |batch| && batch[i] in directory
  }

  predicate MentionsStores(directory: Directory, batch: seq<nat>) {
    exists i: nat :: i < |batch| && batch[i] in directory && directory[batch[i]].stores != []
  }

  /** The batch ends the sync: its fetch fails, or it has something to upsert and
      that fails. */
  predicate Fails(directory: Directory, batch: seq<nat>, faults: Faults, b: nat) {
    b in faults.fetch || (b in faults.upsert && Knows(directory, batch))
  }

  /** The batch has stores to look up and that fails: its memberships stay. */
  predicate LookupFails(directory: Directory, batch: seq<nat>, faults: Faults, b: nat) {
    b in faults.resolve && MentionsStores(directory, batch)
  }

  /** The ids of the batch, unless its lookup fails. */
  ghost function Looked(directory: Directory, batch: seq<nat>, faults: Faults, b: nat): set<nat> {
    if LookupFails(directory, batch, faults, b) then {} else Asked(batch, |batch|)
  }

  lemma BoundGrows(ids: seq<nat>, size: nat, b: nat)
    ensures Bound(ids, size, b) <= Bound(ids, size, b + 1) <= Bound(ids, size, b) + size
  {}

  /** The ids asked in those of the first b batches that found their stores. */
  ghost function Resolved(ids: seq<nat>, size: nat, directory: Directory, faults: Faults, b: nat): set<nat> {
    if b == 0 then {}
    else
      BoundGrows(ids, size, b - 1);
      var batch := Batch(ids, size, b - 1);
      Resolved(ids, size, directory, faults, b - 1) + Looked(directory, batch, faults, b - 1)
  }

  function Refreshed(x: Person, e: OdooEmployee): Person {
    x.(fullName := e.fullName, email := e.email)
  }

  /** Names and emails come from Odoo for the asked ids that it knows. */
  ghost function Names(employees: map<nat, Person>, directory: Directory, asked: set<nat>): map<nat, Person> {
    map k | k in employees ::
      if k in asked && k in directory then Refreshed(employees[k], directory[k]) else employees[k]
  }

  ghost function Ids(employees: map<nat, Person>): map<nat, nat> {
    map k | k in employees :: employees[k].id
  }

  ghost function Internal(employees: map<nat, Person>, asked: set<nat>): map<nat, nat> {
    map k | k in employees && k in asked :: employees[k].id
  }

  /** The known local employees among `asked` whose transaction goes through. */
  ghost function Reached(ids: map<nat, nat>, directory: Directory, asked: set<nat>, replace: set<nat>): set<nat> {
    set k | k in asked && k in ids && k in directory && ids[k] !in replace
  }

  predicate Wants(e: OdooEmployee, stores: map<OdooKey, nat>, store: nat) {
    exists i: nat :: i < |e.stores| && e.stores[i] in stores && stores[e.stores[i]] == store
  }

  /** `resolved` agrees with the store table on e's stores. */
  predicate LookedUp(e: OdooEmployee, resolved: map<OdooKey, nat>, stores: map<OdooKey, nat>) {
    && (forall i: nat :: i < |e.stores| ==> (e.stores[i] in resolved <==> e.stores[i] in stores))
    && forall key :: key in resolved ==> key in stores && resolved[key] == stores[key]
  }

  ghost predicate Outside(ids: map<nat, nat>, ks: set<nat>, e: nat) {
    forall k :: k in ks && k in ids ==> ids[k] != e
  }

  /** Every employee of ks has exactly its resolvable Odoo stores; the pairs of
      all other employees are as they were. */
  ghost predicate Members(table: Table, was: Table, ids: map<nat, nat>, directory: Directory, stores: map<OdooKey, nat>,
                          ks: set<nat>) {
    && (forall k: nat, s: nat :: k in ks && k in ids && k in directory ==>
                                   (Pair(ids[k], s) in table <==> Wants(directory[k], stores, s)))
    && forall p: Pair :: Outside(ids, ks, p.employee) ==> (p in table <==> p in was)
  }

  datatype Tables = Tables(employees: map<nat, Person>, memberships: Table)

  /** What a sync that asked for `asked`, and found the stores of `resolved`,
      does to the tables. */
  ghost predicate Effect(was: Tables, now: Tables, directory: Directory, stores: map<OdooKey, nat>, asked: set<nat>,
                         resolved: set<nat>, replace: set<nat>) {
    && now.employees == Names(was.employees, directory, asked)
    && Members(now.memberships, was.memberships, Ids(was.employees), directory, stores,
               Reached(Ids(was.employees), directory, resolved, replace))
  }

  /** The unresolvable store ids of the known local employees among `asked`. */
  ghost predicate Unresolvable(key: OdooKey, ids: map<nat, nat>, directory: Directory, stores: map<OdooKey, nat>,
                               asked: set<nat>) {
    key !in stores && exists k :: k in asked && k in ids && k in directory && key in directory[k].stores
  }

  /** The first n ids that Odoo does not know, in order. */
  function Missing(ids: seq<nat>, directory: Directory, n: nat): seq<nat>
    requires n <= |ids|
  {
    if n == 0 then [] else Missing(ids, directory, n - 1) + if ids[n - 1] in directory then [] else [ids[n - 1]]
  }

  ghost predicate OneRowEach(ids: map<nat, nat>) {
    forall k, k' :: k in ids && k' in ids && ids[k] == ids[k'] ==> k == k'
  }

  // ---- what an effect is, in columns and rows ----

  /** Of the asked employees that Odoo and the local table know, name and email
      are Odoo's; of the resolved ones whose transaction goes through, the
      memberships are exactly the resolvable stores that Odoo lists. Nothing else
      changes. */
  lemma EffectSpelledOut(was: Tables, now: Tables, directory: Directory, stores: map<OdooKey, nat>, asked: set<nat>,
                         resolved: set<nat>, replace: set<nat>)
    requires Effect(was, now, directory, stores, asked, resolved, replace)
    ensures now.employees.Keys == was.employees.Keys
    ensures forall k: nat :: k in was.employees ==>
                               now.employees[k] ==
                               if k in asked && k in directory
                               then Person(was.employees[k].id, directory[k].fullName, directory[k].email)
                               else was.employees[k]
    ensures forall k: nat, s: nat :: k in was.employees && k in resolved && k in directory
                                     && was.employees[k].id !in replace ==>
                                       (Pair(was.employees[k].id, s) in now.memberships <==>
                                        exists i: nat :: && i < |directory[k].stores|
                                                         && directory[k].stores[i] in stores
                                                         && stores[directory[k].stores[i]] == s)
    ensures forall p: Pair :: (forall k: nat :: k in was.employees && was.employees[k].id == p.employee ==>
                                                  k !in resolved || k !in directory || p.employee in replace) ==>
                                (p in now.memberships <==> p in was.memberships)
  {
    var ids := Ids(was.employees);
    var ks := Reached(ids, directory, resolved, replace);
    forall k: nat | k in was.employees && k in resolved && k in directory && was.employees[k].id !in replace
      ensures k in ks && ids[k] == was.employees[k].id
    {}
    forall p: Pair | forall k: nat :: k in was.employees && was.employees[k].id == p.employee ==>
                                        k !in resolved || k !in directory || p.employee in replace
      ensures p in now.memberships <==> p in was.memberships
    {
      assert Outside(ids, ks, p.employee);
    }
  }

  lemma AskedIsPrefix(ids: seq<nat>, n: nat)
    requires n <= |ids|
    ensures forall k: nat :: k in Asked(ids, n) <==> k in ids[..n]
    ensures ids[..|ids|] == ids
  {
    forall k: nat ensures k in Asked(ids, n) <==> k in ids[..n] {
      if i: nat :| i < n && ids[i] == k {
        assert ids[..n][i] == k;
      }
    }
  }

  /** The reported missing ids stand where the ids unknown to Odoo stand, in order. */
  lemma {:induction false} MissingPositions(ids: seq<nat>, directory: Directory, n: nat) returns (at: seq<nat>)
    requires n <= |ids|
    ensures |at| == |Missing(ids, directory, n)| && Increasing(at)
    ensures forall i: nat :: i < |at| ==>
                               && at[i] < n && ids[at[i]] !in directory && Missing(ids, directory, n)[i] == ids[at[i]]
    ensures forall j: nat :: j < n && ids[j] !in directory ==> j in at
  {
    at := [];
    if n > 0 {
      at := MissingPositions(ids, directory, n - 1);
      if ids[n - 1] !in directory {
        at := at + [n - 1];
      }
    }
  }

  /** An id's stores are looked up in some batch that is dealt with. */
  lemma {:induction false} ResolvedIff(ids: seq<nat>, size: nat, directory: Directory, faults: Faults, b: nat, k: nat)
    ensures k in Resolved(ids, size, directory, faults, b) <==>
            exists c: nat :: c < b && LookedUpIn(ids, size, directory, faults, c, k)
  {
    if b > 0 {
      ResolvedIff(ids, size, directory, faults, b - 1, k);
      LookedIff(ids, size, directory, faults, b - 1, k);
    }
  }

  lemma LookedIff(ids: seq<nat>, size: nat, directory: Directory, faults: Faults, c: nat, k: nat)
    ensures Bound(ids, size, c) <= Bound(ids, size, c + 1)
    ensures k in Looked(directory, Batch(ids, size, c), faults, c) <==> LookedUpIn(ids, size, directory, faults, c, k)
  {
    BoundGrows(ids, size, c);
    var lo, hi, batch := Bound(ids, size, c), Bound(ids, size, c + 1), Batch(ids, size, c);
    forall i: nat | lo <= i < hi ensures batch[i - lo] == ids[i] {}
    assert MentionsStores(directory, batch) <==>
           exists i: nat :: lo <= i < hi && ids[i] in directory && directory[ids[i]].stores != [] by {
      if i: nat :| i < |batch| && batch[i] in directory && directory[batch[i]].stores != [] {
        assert ids[lo + i] == batch[i];
      }
    }
    assert k in Asked(batch, |batch|) <==> exists i: nat :: lo <= i < hi && ids[i] == k by {
      if i: nat :| i < |batch| && batch[i] == k {
        assert ids[lo + i] == k;
      }
    }
  }

  /** k is asked in batch c, and either nobody there has a store or the lookup works. */
  ghost predicate LookedUpIn(ids: seq<nat>, size: nat, directory: Directory, faults: Faults, c: nat, k: nat) {
    && (exists i: nat :: c * size <= i < (c + 1) * size && i < |ids| && ids[i] == k)
    && (c in faults.resolve ==>
          forall i: nat :: c * size <= i < (c + 1) * size && i < |ids| && ids[i] in directory ==>
                             directory[ids[i]].stores == [])
  }

  // ---- how effects add up ----

  lemma NamesCompose(employees: map<nat, Person>, directory: Directory, a: set<nat>, b: set<nat>)
    ensures Names(Names(employees, directory, a), directory, b) == Names(employees, directory, a + b)
    ensures Ids(Names(employees, directory, a)) == Ids(employees)
  {}

  lemma RefreshOne(was: map<nat, Person>, directory: Directory, done: set<nat>, e: OdooEmployee)
    requires e.id in was && e.id in directory && directory[e.id] == e
    ensures e.id in Names(was, directory, done)
    ensures Names(was, directory, done)[e.id := Refreshed(Names(was, directory, done)[e.id], e)] ==
            Names(was, directory, done + {e.id})
    ensures Internal(was, done)[e.id := was[e.id].id] == Internal(was, done + {e.id})
    ensures Refreshed(Names(was, directory, done)[e.id], e).id == was[e.id].id
  {}

  lemma RefreshNone(was: map<nat, Person>, directory: Directory, done: set<nat>, k: nat)
    requires k !in was
    ensures Names(was, directory, done + {k}) == Names(was, directory, done)
    ensures Internal(was, done + {k}) == Internal(was, done)
  {}

  lemma AskedFound(was: map<nat, Person>, directory: Directory, batch: seq<nat>, done: set<nat>)
    requires forall k :: k in done <==> k in batch && k in directory
    ensures Names(was, directory, done) == Names(was, directory, Asked(batch, |batch|))
  {}

  lemma MembersCompose(t2: Table, t1: Table, t0: Table, ids: map<nat, nat>, directory: Directory,
                       stores: map<OdooKey, nat>, a: set<nat>, b: set<nat>)
    requires OneRowEach(ids) && Members(t1, t0, ids, directory, stores, a) && Members(t2, t1, ids, directory, stores, b)
    ensures Members(t2, t0, ids, directory, stores, a + b)
  {}

  lemma EffectsCompose(was: Tables, mid: Tables, now: Tables, directory: Directory, stores: map<OdooKey, nat>,
                       replace: set<nat>,
                       asked: set<nat>, resolved: set<nat>, asked': set<nat>, resolved': set<nat>)
    requires OneRowEach(Ids(was.employees))
    requires Effect(was, mid, directory, stores, asked, resolved, replace)
    requires Effect(mid, now, directory, stores, asked', resolved', replace)
    ensures Effect(was, now, directory, stores, asked + asked', resolved + resolved', replace)
  {}

  /** One employee's replace. */
  lemma MembersOne(table: Table, ids: map<nat, nat>, directory: Directory, stores: map<OdooKey, nat>, k: nat,
                   storeIds: seq<nat>)
    requires k in ids && k in directory && forall s :: s in storeIds <==> Wants(directory[k], stores, s)
    ensures Members(InsertOthers(DeleteOthersNotIn(table, ids[k], storeIds), ids[k], storeIds), table, ids, directory,
                    stores, {k})
  {}

  lemma MembersNone(table: Table, ids: map<nat, nat>, directory: Directory, stores: map<OdooKey, nat>)
    ensures Members(table, table, ids, directory, stores, {})
  {}

  lemma AskedNext(ids: seq<nat>, size: nat, b: nat)
    ensures Bound(ids, size, b) <= Bound(ids, size, b + 1)
    ensures Asked(ids, Bound(ids, size, b + 1)) ==
            Asked(ids, Bound(ids, size, b)) + Asked(Batch(ids, size, b), |Batch(ids, size, b)|)
  {}

  /** With every store lookup working, the resolved ids are all the asked ones. */
  lemma {:induction false} AllResolved(ids: seq<nat>, size: nat, directory: Directory, faults: Faults, b: nat)
    requires faults.resolve == {}
    ensures Resolved(ids, size, directory, faults, b) == Asked(ids, Bound(ids, size, b))
  {
    if b > 0 {
      AllResolved(ids, size, directory, faults, b - 1);
      AskedNext(ids, size, b - 1);
    }
  }

  lemma {:induction false} MissingExtends(ids: seq<nat>, directory: Directory, n: nat, m: nat)
    requires n <= m <= |ids|
    ensures Missing(ids, directory, m) == Missing(ids, directory, n) + Missing(ids[n..m], directory, m - n)
  {
    if n < m {
      MissingExtends(ids, directory, n, m - 1);
      MissingPrefix(ids[n..m], ids[n..m - 1], directory, m - 1 - n);
    }
  }

  lemma {:induction false} MissingPrefix(a: seq<nat>, b: seq<nat>, directory: Directory, n: nat)
    requires n <= |a| && n <= |b| && forall i: nat :: i < n ==> a[i] == b[i]
    ensures Missing(a, directory, n) == Missing(b, directory, n)
  {
    if n > 0 {
      MissingPrefix(a, b, directory, n - 1);
    }
  }

  // ---- the service ----

  class Service {
    var employees: map<nat, Person>
    var memberships: Table
    /** store.id by odoo_store_id. */
    const stores: map<OdooKey, nat>
    const guard: SyncGuard.Guard

    constructor (stores: map<OdooKey, nat>, guard: SyncGuard.Guard)
      ensures Valid() && this.stores == stores && this.guard == guard && employees == map[] && memberships == {}
    {
      this.stores, this.guard, employees, memberships := stores, guard, map[], {};
    }

    ghost predicate Valid()
      reads this
    {
      OneRowEach(Ids(employees))
    }

    ghost function View(): Tables
      reads this
    {
      Tables(employees, memberships)
    }

    /** UpsertEmployees: an UPDATE joined with the answer, so it never inserts;
        and the map that the rows it returns are collected in. */
    method UpsertEmployees(ghost directory: Directory, ghost batch: seq<nat>, found: seq<OdooEmployee>)
      returns (internal: map<nat, nat>)
      requires Answers(directory, batch, found)
      modifies this`employees
      ensures employees == Names(old(employees), directory, Asked(batch, |batch|))
      ensures employees.Keys == old(employees).Keys
      ensures forall k: nat :: k in employees ==>
                                 employees[k] == if k in batch && k in directory
                                 then Person(old(employees)[k].id, directory[k].fullName,
                                             directory[k].email)
                                 else old(employees)[k]
      ensures forall k :: k in internal <==> k in employees && k in directory && k in batch
      ensures forall k :: k in internal ==> internal[k] == employees[k].id
    {
      ghost var was := employees;
      internal := map[];
      assert Names(was, directory, {}) == was && Internal(was, {}) == map[];
      for i := 0 to |found|
        invariant employees == Names(was, directory, Found(found, i)) && internal == Internal(was, Found(found, i))
      {
        var e := found[i];
        assert Found(found, i + 1) == Found(found, i) + {e.id};
        if e.id in employees {
          RefreshOne(was, directory, Found(found, i), e);
          employees := employees[e.id := Refreshed(employees[e.id], e)];
          internal := internal[e.id := employees[e.id].id];
        } else {
          RefreshNone(was, directory, Found(found, i), e.id);
        }
      }
      forall k: nat ensures k in Found(found, |found|) <==> k in batch && k in directory {
        FoundIsAnswer(directory, batch, found, k);
      }
      AskedFound(was, directory, batch, Found(found, |found|));
    }

    /** One employee's Odoo stores, split into local ids and unresolvable ones. */
    method ResolveStores(e: OdooEmployee, resolved: map<OdooKey, nat>)
      returns (storeIds: seq<nat>, skipped: seq<OdooKey>)
      requires LookedUp(e, resolved, stores)
      ensures forall s :: s in storeIds <==> Wants(e, stores, s)
      ensures forall key :: key in skipped <==> key in e.stores && key !in stores
    {
      storeIds, skipped := [], [];
      for i := 0 to |e.stores|
        invariant forall s :: s in storeIds <==>
                              exists k: nat :: k < i && e.stores[k] in stores && stores[e.stores[k]] == s
        invariant forall key :: key in skipped <==> key !in stores && exists k: nat :: k < i && e.stores[k] == key
      {
        if e.stores[i] !in resolved {
          skipped := skipped + [e.stores[i]];
          continue;
        }
        storeIds := storeIds + [resolved[e.stores[i]]];
      }
    }

    /** ListStoresByOdooStoreIDs over all stores that the answer mentions. */
    method LookUpStores(found: seq<OdooEmployee>) returns (resolved: map<OdooKey, nat>)
      ensures forall i: nat :: i < |found| ==> LookedUp(found[i], resolved, stores)
    {
      var keys: set<OdooKey> := {};
      for i := 0 to |found|
        invariant forall k: nat, j: nat :: k < i && j < |found[k].stores| ==> found[k].stores[j] in keys
      {
        keys := keys + set j | 0 <= j < |found[i].stores| :: found[i].stores[j];
      }
      resolved := map key | key in keys && key in stores :: stores[key];
    }

    /** One turn of syncEmployeeStores: a found employee, if a local one, and the
        replace of its memberships in its own transaction. */
    method SyncOneEmployee(ghost directory: Directory, e: OdooEmployee, internal: map<nat, nat>,
                           resolved: map<OdooKey, nat>, replace: set<nat>)
      returns (skipped: seq<OdooKey>)
      requires e.id in internal <==> e.id in employees
      requires e.id in internal ==> internal[e.id] == employees[e.id].id
      requires e.id in directory && directory[e.id] == e && LookedUp(e, resolved, stores)
      modifies this`memberships
      ensures Members(memberships, old(memberships), Ids(employees), directory, stores,
                      if e.id in employees && employees[e.id].id !in replace then {e.id} else {})
      ensures forall key :: key in skipped <==> e.id in employees && key in e.stores && key !in stores
    {
      skipped := [];
      ghost var ids := Ids(employees);
      MembersNone(memberships, ids, directory, stores);
      if e.id in internal {
        var id := internal[e.id];
        var storeIds, more := ResolveStores(e, resolved);
        skipped := more;
        if id !in replace {
          MembersOne(memberships, ids, directory, stores, e.id, storeIds);
          memberships := DeleteOthersNotIn(memberships, id, storeIds);
          memberships := InsertOthers(memberships, id, storeIds);
        }
      }
    }

    method SyncEmployeeStores(ghost directory: Directory, ghost batch: seq<nat>, found: seq<OdooEmployee>,
                              internal: map<nat, nat>, replace: set<nat>)
      returns (skipped: seq<OdooKey>)
      requires Valid() && Answers(directory, batch, found)
      requires forall k :: k in internal <==> k in employees && k in directory && k in batch
      requires forall k :: k in internal ==> internal[k] == employees[k].id
      modifies this`memberships
      ensures Members(memberships, old(memberships), Ids(employees), directory, stores,
                      Reached(Ids(employees), directory, Asked(batch, |batch|), replace))
      ensures forall key :: key in skipped <==> Unresolvable(key, Ids(employees), directory, stores,
                                                             Asked(batch, |batch|))
    {
      var resolved := LookUpStores(found);
      ghost var ids := Ids(employees);
      ghost var was := memberships;
      skipped := [];
      MembersNone(memberships, ids, directory, stores);
      assert Reached(ids, directory, Found(found, 0), replace) == {};
      for i := 0 to |found|
        invariant Members(memberships, was, ids, directory, stores, Reached(ids, directory, Found(found, i), replace))
        invariant forall key :: key in skipped <==> Unresolvable(key, ids, directory, stores, Found(found, i))
      {
        var e := found[i];
        ghost var before := memberships;
        var more := SyncOneEmployee(directory, e, internal, resolved, replace);
        skipped := skipped + more;
        MembersCompose(memberships, before, was, ids, directory, stores,
                       Reached(ids, directory, Found(found, i), replace),
                       if e.id in ids && ids[e.id] !in replace then {e.id} else {});
        FoundNext(found, i, ids, directory, stores, replace);
      }
      FoundIsAsked(directory, batch, found, ids, stores, replace);
    }

    /** One batch of runSync. */
    method SyncBatch(ghost directory: Directory, fetch: Fetch, batch: seq<nat>, b: nat, faults: Faults)
      returns (ok: bool, missing: seq<nat>, skipped: seq<OdooKey>)
      requires Valid() && Truthful(directory, fetch)
      modifies this`employees, this`memberships
      ensures Valid() && Ids(employees) == Ids(old(employees))
      ensures ok <==>
              && b !in faults.fetch
              && (b in faults.upsert ==> forall i: nat :: i < |batch| ==> batch[i] !in directory)
      ensures !ok ==> View() == old(View())
      ensures ok ==>
                Effect(old(View()), View(), directory, stores, Asked(batch, |batch|),
                       Looked(directory, batch, faults, b),
                       faults.replace)
      ensures ok ==> missing == Missing(batch, directory, |batch|)
      ensures ok ==> SkippedAre(skipped, old(View()), directory, stores, Looked(directory, batch, faults, b))
    {
      missing, skipped := [], [];
      if b in faults.fetch {
        return false, [], [];
      }
      var found := fetch(batch);
      AnswerFacts(directory, batch, found);
      missing := NotFound(directory, batch, found);
      if |found| == 0 {
        NothingKnown(employees, memberships, directory, stores, batch, faults.replace);
        return true, missing, [];
      }
      if b in faults.upsert {
        return false, [], [];
      }
      ghost var was := employees;
      NamesCompose(was, directory, Asked(batch, |batch|), {});
      var internal := UpsertEmployees(directory, batch, found);
      if b in faults.resolve && exists i: nat :: i < |found| && found[i].stores != [] {
        MembersNone(memberships, Ids(employees), directory, stores);
        return true, missing, [];
      }
      skipped := SyncEmployeeStores(directory, batch, found, internal, faults.replace);
      ok := true;
    }

    /** runSync. The tables end as the first `batches` batches leave them: all of
        them, or those before the first that fails. */
    method RunSync(ghost directory: Directory, fetch: Fetch, ids: seq<nat>, size: nat, faults: Faults)
      returns (report: Option<(seq<nat>, seq<OdooKey>)>, ghost batches: nat)
      requires Valid() && Truthful(directory, fetch) && size > 0
      modifies this`employees, this`memberships
      ensures Valid()
      ensures StopsAt(ids, size, directory, faults, report.Some?, batches)
      ensures Effect(old(View()), View(), directory, stores, Asked(ids, Bound(ids, size, batches)),
                     Resolved(ids, size, directory, faults, batches), faults.replace)
      ensures employees.Keys == old(employees).Keys
      ensures forall k: nat :: k in employees ==>
                                 employees[k] == if k in ids[..Bound(ids, size, batches)] && k in directory
                                 then Person(old(employees)[k].id, directory[k].fullName,
                                             directory[k].email)
                                 else old(employees)[k]
      ensures report.None? ==>
                batches * size < |ids| && (batches in faults.fetch || batches in faults.upsert)
      ensures report.Some? ==> batches * size >= |ids|
      ensures report.Some? ==> report.value.0 == Missing(ids, directory, |ids|)
      ensures report.Some? ==>
                SkippedAre(report.value.1, old(View()), directory, stores,
                           Resolved(ids, size, directory, faults, batches))
    {
      ghost var was := View();
      var notFound, skipped := [], [];
      var b := 0;
      NoProgress(was, directory, stores, ids, size, faults);
      while b * size < |ids|
        invariant Valid() && Progress(was, View(), directory, stores, ids, size, faults, b, notFound, skipped)
        invariant forall c: nat :: c < b ==> !FailsAt(ids, size, directory, faults, c)
        decreases |ids| - b * size
      {
        BoundGrows(ids, size, b);
        var batch := Batch(ids, size, b);
        ghost var before := View();
        var ok, missing, more := SyncBatch(directory, fetch, batch, b, faults);
        if !ok {
          EffectSpelledOut(was, View(), directory, stores, Asked(ids, Bound(ids, size, b)),
                           Resolved(ids, size, directory, faults, b), faults.replace);
          AskedIsPrefix(ids, Bound(ids, size, b));
          return None, b;
        }
        OneMoreBatch(was, before, View(), directory, stores, ids, size, faults, b, notFound, skipped, missing, more);
        notFound, skipped := notFound + missing, skipped + more;
        NextIsCloser(|ids|, size, b);
        b := b + 1;
      }
      EffectSpelledOut(was, View(), directory, stores, Asked(ids, Bound(ids, size, b)),
                       Resolved(ids, size, directory, faults, b), faults.replace);
      AskedIsPrefix(ids, Bound(ids, size, b));
      return Some((notFound, skipped)), b;
    }

    /** SyncEmployees with the run it starts: refused while another is in flight,
        and given up when the lookup of the ids fails; the guard is released in
        every case, also after a run that fails. `rows` are the Odoo ids of the
        requested local employees, in the order in which the database returns them. */
    method SyncEmployees(ghost directory: Directory, fetch: Fetch, ids: seq<nat>, rows: seq<nat>, lookupFails: bool,
                         faults: Faults)
      returns (start: SyncStart, report: Option<(seq<nat>, seq<OdooKey>)>, ghost batches: nat)
      requires Valid() && Truthful(directory, fetch)
      requires forall k :: k in rows <==> k in employees && employees[k].id in ids
      modifies this`employees, this`memberships, guard
      ensures Valid() && guard.syncing == old(guard.syncing)
      ensures start == if old(guard.syncing) then InProgress else if lookupFails then LookupFailed else Started
      ensures start != Started ==> View() == old(View())
      ensures start == Started ==>
                && StopsAt(rows, BATCH_SIZE, directory, faults, report.Some?, batches)
                && Effect(old(View()), View(), directory, stores, Asked(rows, Bound(rows, BATCH_SIZE, batches)),
                          Resolved(rows, BATCH_SIZE, directory, faults, batches), faults.replace)
      ensures start == Started ==>
                && employees.Keys == old(employees).Keys
                && forall k: nat :: k in employees ==>
                                      employees[k] ==
                                      if k in rows[..Bound(rows, BATCH_SIZE, batches)] && k in directory
                                      then Person(old(employees)[k].id, directory[k].fullName, directory[k].email)
                                      else old(employees)[k]
      ensures start == Started && faults == NO_FAULTS ==>
                && report.Some?
                && Effect(old(View()), View(), directory, stores, Requested(old(employees), ids),
                          Requested(old(employees), ids), {})
                && employees.Keys == old(employees).Keys
                && (forall k: nat :: k in employees ==>
                                       employees[k] ==
                                       if old(employees)[k].id in ids && k in directory
                                       then Person(old(employees)[k].id, directory[k].fullName, directory[k].email)
                                       else old(employees)[k])
                && (forall k: nat, s: nat :: k in employees && employees[k].id in ids && k in directory ==>
                                               (Pair(employees[k].id, s) in memberships <==>
                                                exists i: nat :: && i < |directory[k].stores|
                                                                 && directory[k].stores[i] in stores
                                                                 && stores[directory[k].stores[i]] == s))
                && (forall p: Pair :: (forall k: nat :: k in employees && employees[k].id in ids && k in directory ==>
                                                          employees[k].id != p.employee) ==>
                                        (p in memberships <==> p in old(memberships)))
    {
      report, batches := None, 0;
      var free := guard.TryStart();
      if !free {
        return InProgress, report, batches;
      }
      if lookupFails {
        guard.Finish();
        return LookupFailed, report, batches;
      }
      report, batches := RunRequested(directory, fetch, ids, rows, faults);
      guard.Finish();
      start := Started;
    }

    /** The run of SyncEmployees; without faults it deals with all that were requested. */
    method RunRequested(ghost directory: Directory, fetch: Fetch, ids: seq<nat>, rows: seq<nat>, faults: Faults)
      returns (report: Option<(seq<nat>, seq<OdooKey>)>, ghost batches: nat)
      requires Valid() && Truthful(directory, fetch)
      requires forall k :: k in rows <==> k in employees && employees[k].id in ids
      modifies this`employees, this`memberships
      ensures Valid() && StopsAt(rows, BATCH_SIZE, directory, faults, report.Some?, batches)
      ensures Effect(old(View()), View(), directory, stores, Asked(rows, Bound(rows, BATCH_SIZE, batches)),
                     Resolved(rows, BATCH_SIZE, directory, faults, batches), faults.replace)
      ensures employees.Keys == old(employees).Keys
      ensures forall k: nat :: k in employees ==>
                                 employees[k] ==
                                 if k in rows[..Bound(rows, BATCH_SIZE, batches)] && k in directory
                                 then Person(old(employees)[k].id, directory[k].fullName, directory[k].email)
                                 else old(employees)[k]
      ensures faults == NO_FAULTS ==>
                && report.Some?
                && Effect(old(View()), View(), directory, stores, Requested(old(employees), ids),
                          Requested(old(employees), ids), {})
                && employees.Keys == old(employees).Keys
                && (forall k: nat :: k in employees ==>
                                       employees[k] ==
                                       if old(employees)[k].id in ids && k in directory
                                       then Person(old(employees)[k].id, directory[k].fullName, directory[k].email)
                                       else old(employees)[k])
                && (forall k: nat, s: nat :: k in employees && employees[k].id in ids && k in directory ==>
                                               (Pair(employees[k].id, s) in memberships <==>
                                                exists i: nat :: && i < |directory[k].stores|
                                                                 && directory[k].stores[i] in stores
                                                                 && stores[directory[k].stores[i]] == s))
                && (forall p: Pair :: (forall k: nat :: k in employees && employees[k].id in ids && k in directory ==>
                                                          employees[k].id != p.employee) ==>
                                        (p in memberships <==> p in old(memberships)))
    {
      ghost var was := View();
      RequestedAre(employees, ids, rows);
      report, batches := RunSync(directory, fetch, rows, BATCH_SIZE, faults);
      if faults == NO_FAULTS {
        AllResolved(rows, BATCH_SIZE, directory, faults, batches);
        EffectSpelledOut(was, View(), directory, stores, Requested(was.employees, ids), Requested(was.employees, ids),
                         {});
      }
    }

    /** runSync when nothing fails: every asked employee that Odoo and
        the local table know has Odoo's name and email and exactly its resolvable
        stores, whatever the batch size. */
    method RunSyncWithoutFaults(ghost directory: Directory, fetch: Fetch, ids: seq<nat>, size: nat)
      returns (notFound: seq<nat>, skipped: seq<OdooKey>)
      requires Valid() && Truthful(directory, fetch) && size > 0
      modifies this`employees, this`memberships
      ensures Valid()
      ensures Effect(old(View()), View(), directory, stores, Asked(ids, |ids|), Asked(ids, |ids|), {})
      ensures employees.Keys == old(employees).Keys
      ensures forall k: nat :: k in employees ==>
                                 employees[k] == if k in ids && k in directory
                                 then Person(old(employees)[k].id, directory[k].fullName,
                                             directory[k].email)
                                 else old(employees)[k]
      ensures forall k: nat, s: nat :: k in employees && k in ids && k in directory ==>
                                         (Pair(employees[k].id, s) in memberships <==>
                                          exists i: nat :: && i < |directory[k].stores|
                                                           && directory[k].stores[i] in stores
                                                           && stores[directory[k].stores[i]] == s)
      ensures forall p: Pair :: (forall k: nat :: k in employees && k in ids && k in directory ==>
                                                    employees[k].id != p.employee) ==>
                                  (p in memberships <==> p in old(memberships))
      ensures notFound == Missing(ids, directory, |ids|)
      ensures forall key :: key in skipped <==>
                            && key !in stores
                            && exists k: nat :: && k in employees && k in ids && k in directory
                                                && key in directory[k].stores
    {
      ghost var was := View();
      var report;
      ghost var batches;
      report, batches := RunSync(directory, fetch, ids, size, NO_FAULTS);
      AllResolved(ids, size, directory, NO_FAULTS, batches);
      EffectSpelledOut(was, View(), directory, stores, Asked(ids, |ids|), Asked(ids, |ids|), {});
      AskedIsPrefix(ids, |ids|);
      notFound, skipped := report.value.0, report.value.1;
    }
  }

  /** The run went through all its batches, or stopped at the first that fails. */
  ghost predicate StopsAt(ids: seq<nat>, size: nat, directory: Directory, faults: Faults, complete: bool,
                          batches: nat) {
    && (if complete then Bound(ids, size, batches) == |ids| else FailsAt(ids, size, directory, faults, batches))
    && forall b: nat :: b < batches ==> !FailsAt(ids, size, directory, faults, b)
  }

  /** Batch b exists and ends the sync. */
  ghost predicate FailsAt(ids: seq<nat>, size: nat, directory: Directory, faults: Faults, b: nat) {
    Bound(ids, size, b) <= Bound(ids, size, b + 1)
    && Bound(ids, size, b) < |ids|
    && Fails(directory, Batch(ids, size, b), faults, b)
  }

  // ---- the batch size does not matter ----

  /** The effect of a sync determines the tables. */
  lemma EffectIsUnique(was: Tables, now: Tables, now': Tables, directory: Directory, stores: map<OdooKey, nat>,
                       asked: set<nat>, resolved: set<nat>, replace: set<nat>)
    requires Effect(was, now, directory, stores, asked, resolved, replace)
    requires Effect(was, now', directory, stores, asked, resolved, replace)
    ensures now == now'
  {
    var ids := Ids(was.employees);
    var ks := Reached(ids, directory, resolved, replace);
    forall p: Pair ensures p in now.memberships <==> p in now'.memberships {
      if k: nat :| k in ks && ids[k] == p.employee {
        assert p == Pair(ids[k], p.other);
      } else {
        assert Outside(ids, ks, p.employee);
      }
    }
  }

  /** Two runs over the same ids in batches of different sizes, as RunSync leaves
      them when no statement fails: same tables, same missing ids in the same
      order, same set of unresolvable stores. */
  lemma BatchSizeDoesNotMatter(was: Tables, now: Tables, now': Tables, directory: Directory,
                               stores: map<OdooKey, nat>, ids: seq<nat>,
                               size: nat, batches: nat, notFound: seq<nat>, skipped: seq<OdooKey>,
                               size': nat, batches': nat, notFound': seq<nat>, skipped': seq<OdooKey>)
    requires Progress(was, now, directory, stores, ids, size, NO_FAULTS, batches, notFound, skipped)
    requires Progress(was, now', directory, stores, ids, size', NO_FAULTS, batches', notFound', skipped')
    requires Bound(ids, size, batches) == |ids| && Bound(ids, size', batches') == |ids|
    ensures now == now' && notFound == notFound' && forall key :: key in skipped <==> key in skipped'
  {
    AllResolved(ids, size, directory, NO_FAULTS, batches);
    AllResolved(ids, size', directory, NO_FAULTS, batches');
    EffectIsUnique(was, now, now', directory, stores, Asked(ids, |ids|), Asked(ids, |ids|), {});
  }

  /** Where runSync stands after b batches. */
  ghost predicate Progress(was: Tables, now: Tables, directory: Directory, stores: map<OdooKey, nat>, ids: seq<nat>,
                           size: nat, faults: Faults,
                           b: nat, notFound: seq<nat>, skipped: seq<OdooKey>)
  {
    && Effect(was, now, directory, stores, Asked(ids, Bound(ids, size, b)), Resolved(ids, size, directory, faults, b),
              faults.replace)
    && notFound == Missing(ids, directory, Bound(ids, size, b))
    && SkippedAre(skipped, was, directory, stores, Resolved(ids, size, directory, faults, b))
  }

  ghost predicate SkippedAre(skipped: seq<OdooKey>, was: Tables, directory: Directory, stores: map<OdooKey, nat>,
                             resolved: set<nat>) {
    forall key :: key in skipped <==> Unresolvable(key, Ids(was.employees), directory, stores, resolved)
  }

  lemma NoProgress(was: Tables, directory: Directory, stores: map<OdooKey, nat>, ids: seq<nat>, size: nat,
                   faults: Faults)
    ensures Progress(was, was, directory, stores, ids, size, faults, 0, [], [])
  {}

  lemma OneMoreBatch(was: Tables, mid: Tables, now: Tables, directory: Directory, stores: map<OdooKey, nat>,
                     ids: seq<nat>, size: nat,
                     faults: Faults, b: nat, notFound: seq<nat>, skipped: seq<OdooKey>,
                     missing: seq<nat>, more: seq<OdooKey>)
    requires OneRowEach(Ids(was.employees))
    requires Progress(was, mid, directory, stores, ids, size, faults, b, notFound, skipped)
    requires Bound(ids, size, b) <= Bound(ids, size, b + 1)
    requires var batch := Batch(ids, size, b);
             && Effect(mid, now, directory, stores, Asked(batch, |batch|), Looked(directory, batch, faults, b),
                       faults.replace)
             && missing == Missing(batch, directory, |batch|)
             && SkippedAre(more, mid, directory, stores, Looked(directory, batch, faults, b))
    ensures Progress(was, now, directory, stores, ids, size, faults, b + 1, notFound + missing, skipped + more)
  {
    var batch := Batch(ids, size, b);
    var resolved, looked := Resolved(ids, size, directory, faults, b), Looked(directory, batch, faults, b);
    AskedNext(ids, size, b);
    EffectsCompose(was, mid, now, directory, stores, faults.replace, Asked(ids, Bound(ids, size, b)), resolved,
                   Asked(batch, |batch|), looked);
    NamesCompose(was.employees, directory, Asked(ids, Bound(ids, size, b)), {});
    UnresolvableAdds(Ids(was.employees), directory, stores, resolved, looked);
    MissingExtends(ids, directory, Bound(ids, size, b), Bound(ids, size, b + 1));
  }

  /** The Odoo ids of the local employees with these internal ids. */
  ghost function Requested(employees: map<nat, Person>, ids: seq<nat>): set<nat> {
    set k | k in employees && employees[k].id in ids
  }

  /** The rows of the lookup are the requested local employees. */
  lemma RequestedAre(employees: map<nat, Person>, ids: seq<nat>, rows: seq<nat>)
    requires forall k :: k in rows <==> k in employees && employees[k].id in ids
    ensures Asked(rows, |rows|) == Requested(employees, ids)
  {
    forall k: nat ensures k in Asked(rows, |rows|) <==> k in rows {}
  }

  lemma NextIsCloser(n: nat, size: nat, b: nat)
    requires size > 0
    ensures n - (b + 1) * size < n - b * size
  {}

  lemma UnresolvableAdds(ids: map<nat, nat>, directory: Directory, stores: map<OdooKey, nat>, a: set<nat>, b: set<nat>)
    ensures forall key :: Unresolvable(key, ids, directory, stores, a + b) <==>
                          Unresolvable(key, ids, directory, stores, a) || Unresolvable(key, ids, directory, stores, b)
  {}

  /** The loop over a batch that collects the ids missing from the answer. */
  method NotFound(ghost directory: Directory, batch: seq<nat>, found: seq<OdooEmployee>) returns (missing: seq<nat>)
    requires Answers(directory, batch, found)
    ensures missing == Missing(batch, directory, |batch|)
  {
    var foundIds := set i | 0 <= i < |found| :: found[i].id;
    forall k: nat ensures k in foundIds <==> k in batch && k in directory {
      FoundIsAnswer(directory, batch, found, k);
    }
    missing := [];
    for i := 0 to |batch|
      invariant missing == Missing(batch, directory, i)
    {
      if batch[i] !in foundIds {
        missing := missing + [batch[i]];
      }
    }
  }

  lemma AnswerFacts(directory: Directory, batch: seq<nat>, found: seq<OdooEmployee>)
    requires Answers(directory, batch, found)
    ensures Knows(directory, batch) <==> found != []
    ensures MentionsStores(directory, batch) <==> exists i: nat :: i < |found| && found[i].stores != []
  {
    if Knows(directory, batch) {
      var i: nat :| i < |batch| && batch[i] in directory;
      assert Has(found, batch[i]);
    }
    if MentionsStores(directory, batch) {
      var i: nat :| i < |batch| && batch[i] in directory && directory[batch[i]].stores != [];
      assert Has(found, batch[i]);
    }
    forall j: nat | j < |found| ensures exists i: nat :: i < |batch| && batch[i] == found[j].id {
      assert found[j].id in batch;
    }
    if found != [] {
      assert found[0].id in batch;
      var i: nat :| i < |batch| && batch[i] == found[0].id;
    }
  }

  lemma NothingKnown(employees: map<nat, Person>, table: Table, directory: Directory, stores: map<OdooKey, nat>,
                     batch: seq<nat>, replace: set<nat>)
    requires !Knows(directory, batch)
    ensures Names(employees, directory, Asked(batch, |batch|)) == employees
    ensures Reached(Ids(employees), directory, Asked(batch, |batch|), replace) == {}
    ensures Members(table, table, Ids(employees), directory, stores, {})
    ensures forall key :: !Unresolvable(key, Ids(employees), directory, stores, Asked(batch, |batch|))
  {}

  /** What one more answered employee adds to the two reports. */
  lemma FoundNext(found: seq<OdooEmployee>, i: nat, ids: map<nat, nat>, directory: Directory, stores: map<OdooKey, nat>,
                  replace: set<nat>)
    requires i < |found| && found[i].id in directory && directory[found[i].id] == found[i]
    ensures var k := found[i].id;
            Reached(ids, directory, Found(found, i + 1), replace) ==
            Reached(ids, directory, Found(found, i), replace) + if k in ids && ids[k] !in replace then {k} else {}
    ensures forall key :: Unresolvable(key, ids, directory, stores, Found(found, i + 1)) <==>
                          || Unresolvable(key, ids, directory, stores, Found(found, i))
                          || (found[i].id in ids && key in found[i].stores && key !in stores)
  {}

  lemma FoundIsAsked(directory: Directory, batch: seq<nat>, found: seq<OdooEmployee>, ids: map<nat, nat>,
                     stores: map<OdooKey, nat>, replace: set<nat>)
    requires Answers(directory, batch, found)
    ensures Reached(ids, directory, Found(found, |found|), replace) ==
            Reached(ids, directory, Asked(batch, |batch|), replace)
    ensures forall key :: Unresolvable(key, ids, directory, stores, Found(found, |found|)) <==>
                          Unresolvable(key, ids, directory, stores, Asked(batch, |batch|))
  {}

  ghost function Found(found: seq<OdooEmployee>, n: nat): set<nat>
    requires n <= |found|
  {
    set i | 0 <= i < n :: found[i].id
  }

  lemma FoundIsAnswer(directory: Directory, batch: seq<nat>, found: seq<OdooEmployee>, k: nat)
    requires Answers(directory, batch, found)
    ensures k in Found(found, |found|) <==> k in batch && k in directory
  {}
}
