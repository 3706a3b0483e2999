/** The store aggregate under concurrent writers and readers. Every statement
    of the four admin writers, of the synchronisation and of the three-statement
    reader is one step; statements see committed rows plus their own writes
    (READ COMMITTED), a row an open transaction has written stays locked until it
    ends, and an open transaction may roll back at any time. Deletes and inserts
    on the whitelist tables take no lock here, which only adds interleavings.
    `now` is the transaction's now(); no two transactions share one.
 */
module StoreVersions {
  import opened Results
  import opened Whitelist
  import opened StoreModel

  datatype Op =
    | Update(id: Id, token: int, patch: Patch)
    | Remove(id: Id, token: int, ips: seq<Ip>, macs: seq<Mac>)
    | Toggle(id: Id, token: int, enabled: bool)
    | Bulk(tokens: map<Id, int>, enabled: bool)
    | Sync
    | Read(id: Id)

  datatype Status = Waiting | Running | Committed | Aborted

  /** A transaction (or a reader) with its local variables. `writes`, `gone`
      and `born` are its uncommitted row versions, deletions and new rows;
      `ipDel` .. `macAdd` its uncommitted changes to the whitelists of `op.id`;
      `seen`, `seenIps`, `seenMacs` are what its reads returned. */
  datatype Tx = Tx(
    op: Op, status: Status, stage: nat, now: int,
    locks: set<Id>, writes: map<Id, Store>, gone: set<Id>, born: map<Id, Aggregate>,
    ipDel: set<nat>, ipAdd: seq<Entry<Ip>>, ipBase: nat,
    macDel: set<nat>, macAdd: seq<Entry<Mac>>, macBase: nat,
    seen: Option<Store>, seenIps: seq<Entry<Ip>>, seenMacs: seq<Entry<Mac>>)

  /** `db` is the committed state; `used` holds every version that has been current. */
  datatype State = State(db: map<Id, Aggregate>, txs: seq<Tx>, used: set<int>, nextId: Id, nextIp: nat, nextMac: nat)

  datatype Action =
    | Begin(t: nat, now: int)
    | Cas(t: nat)
    | DeleteIps(t: nat) | InsertIps(t: nat) | DeleteMacs(t: nat) | InsertMacs(t: nat)
    | Check(t: nat) | RemoveIps(t: nat) | RemoveMacs(t: nat)
    | LockRow(t: nat, id: Id) | ApplyFlag(t: nat)
    | Rename(t: nat, id: Id, name: string) | Insert(t: nat, odooId: OdooKey, name: string) | Drop(t: nat, id: Id)
    | ReadRow(t: nat) | ReadIps(t: nat) | ReadMacs(t: nat)
    | Commit(t: nat) | Abort(t: nat)

  /** A transaction that has begun and done nothing yet. */
  function Begun(op: Op, now: int): Tx {
    Tx(op, Running, 1, now, {}, map[], {}, map[], {}, [], 0, {}, [], 0, None, [], [])
  }

  predicate Live(tx: Tx) { tx.status == Running }

  predicate LockFree(s: State, t: nat, id: Id) {
    forall u: nat :: u < |s.txs| && u != t && Live(s.txs[u]) ==> id !in s.txs[u].locks
  }

  /** UPDATE store SET ... WHERE id = .. AND updated_at = token: the row that
      matches is not locked by another transaction. */
  predicate CasHits(s: State, t: nat, id: Id, token: int) {
    id in s.db && s.db[id].store.version == token && LockFree(s, t, id)
  }

  function CasWrite(op: Op, store: Store, now: int): Store {
    match op
    case Update(_, _, patch) => Fenced(store, patch.fence, now)
    case Toggle(_, _, enabled) => store.(enabled := enabled, version := now)
    case _ => Fenced(store, NO_FENCE, now)
  }

  /** The stage in which `op` performs its compare-and-set. */
  predicate AtCas(tx: Tx) {
    match tx.op
    case Update(_, _, _) => tx.stage == 1
    case Toggle(_, _, _) => tx.stage == 1
    case Remove(_, _, _, _) => tx.stage == 4 && (tx.ipDel != {} || tx.macDel != {})
    case _ => false
  }

  predicate MayCommit(tx: Tx) {
    match tx.op
    case Update(_, _, _) => tx.stage == 6
    case Toggle(_, _, _) => tx.stage == 2
    case Remove(_, _, _, _) => tx.stage == 5 || (tx.stage == 4 && tx.ipDel == {} && tx.macDel == {})
    case Bulk(_, _) => tx.stage == 2
    case Sync => true
    case Read(_) => tx.stage == 4
  }

  function IpsOf(s: State, id: Id): seq<Entry<Ip>> { if id in s.db then s.db[id].ips else [] }

  function MacsOf(s: State, id: Id): seq<Entry<Mac>> { if id in s.db then s.db[id].macs else [] }

  ghost predicate Enabled(s: State, a: Action) {
    a.t < |s.txs| &&
    var tx := s.txs[a.t];
    match a
    case Begin(t, now) =>
      tx.status == Waiting && now !in s.used && (forall u: nat :: u < |s.txs| && Live(s.txs[u]) ==> s.txs[u].now != now)
    case Cas(t) => Live(tx) && AtCas(tx) && CasHits(s, t, tx.op.id, tx.op.token)
    case DeleteIps(t) => Live(tx) && tx.op.Update? && tx.stage == 2
    case InsertIps(t) => Live(tx) && tx.op.Update? && tx.stage == 3
    case DeleteMacs(t) => Live(tx) && tx.op.Update? && tx.stage == 4
    case InsertMacs(t) => Live(tx) && tx.op.Update? && tx.stage == 5
    case Check(t) =>
      Live(tx) && tx.op.Remove? && tx.stage == 1 && tx.op.id in s.db && s.db[tx.op.id].store.version == tx.op.token
    case RemoveIps(t) => Live(tx) && tx.op.Remove? && tx.stage == 2
    case RemoveMacs(t) => Live(tx) && tx.op.Remove? && tx.stage == 3
    case LockRow(t, id) =>
      Live(tx) && tx.op.Bulk? && tx.stage == 1 && id in tx.op.tokens && id in s.db && LockFree(s, t, id)
    case ApplyFlag(t) =>
      Live(tx) && tx.op.Bulk? && tx.stage == 1 && tx.op.tokens.Keys == tx.locks && tx.locks <= s.db.Keys
      && forall id :: id in tx.op.tokens ==> s.db[id].store.version == tx.op.tokens[id]
    case Rename(t, id, name) => Live(tx) && tx.op.Sync? && id in s.db && id !in tx.gone && LockFree(s, t, id)
    case Insert(t, odooId, name) => Live(tx) && tx.op.Sync?
    case Drop(t, id) => Live(tx) && tx.op.Sync? && id in s.db && LockFree(s, t, id)
    case ReadRow(t) => Live(tx) && tx.op.Read? && tx.stage == 1 && tx.op.id in s.db
    case ReadIps(t) => Live(tx) && tx.op.Read? && tx.stage == 2
    case ReadMacs(t) => Live(tx) && tx.op.Read? && tx.stage == 3
    case Commit(t) => Live(tx) && MayCommit(tx)
    case Abort(t) => Live(tx)
  }

  function With(s: State, t: nat, tx: Tx): State
    requires t < |s.txs|
  {
    s.(txs := s.txs[t := tx])
  }

  /** The aggregate that tx installs for id: its row version, and for the store
      of the operation its own deletes and inserts applied to the lists as they
      are when it commits. */
  function Installed(a: Aggregate, tx: Tx, id: Id): Aggregate
    requires id in tx.writes
  {
    if (tx.op.Update? || tx.op.Remove?) && id == tx.op.id
    then Aggregate(tx.writes[id], Without(a.ips, tx.ipDel) + tx.ipAdd, Without(a.macs, tx.macDel) + tx.macAdd)
    else a.(store := tx.writes[id])
  }

  function AfterCommit(s: State, t: nat): State
    requires t < |s.txs|
  {
    var tx := s.txs[t];
    var kept := map id | id in s.db && id !in tx.gone ::
                  if id in tx.writes then Installed(s.db[id], tx, id) else s.db[id];
    State(kept + tx.born, s.txs[t := tx.(status := Committed)],
          if tx.writes == map[] && tx.born == map[] then s.used else s.used + {tx.now},
          s.nextId, s.nextIp, s.nextMac)
  }

  ghost function Do(s: State, a: Action): State
    requires Enabled(s, a)
  {
    var tx := s.txs[a.t];
    match a
    case Begin(t, now) => With(s, t, Begun(tx.op, now))
    case Cas(t) =>
      var id := tx.op.id;
      With(s, t, tx.(stage := tx.stage + 1, locks := tx.locks + {id},
           writes := tx.writes[id := CasWrite(tx.op, s.db[id].store, tx.now)]))
    case DeleteIps(t) =>
      With(s, t, tx.(stage := 3,
           ipDel := if tx.op.patch.ips.Some? then RowsNotIn(IpsOf(s, tx.op.id), tx.op.patch.ips.value) else {}))
    case InsertIps(t) =>
      if tx.op.patch.ips.Some?
      then var visible := Values(Without(IpsOf(s, tx.op.id), tx.ipDel));
           With(s, t, tx.(stage := 4, ipBase := s.nextIp, ipAdd := Inserted(visible, tx.op.patch.ips.value, s.nextIp)))
           .(nextIp := s.nextIp + |tx.op.patch.ips.value|)
      else With(s, t, tx.(stage := 4))
    case DeleteMacs(t) =>
      With(s, t, tx.(stage := 5,
           macDel := if tx.op.patch.macs.Some? then RowsNotIn(MacsOf(s, tx.op.id), tx.op.patch.macs.value) else {}))
    case InsertMacs(t) =>
      if tx.op.patch.macs.Some?
      then var visible := Values(Without(MacsOf(s, tx.op.id), tx.macDel));
           With(s, t, tx.(stage := 6, macBase := s.nextMac,
                macAdd := Inserted(visible, tx.op.patch.macs.value, s.nextMac)))
           .(nextMac := s.nextMac + |tx.op.patch.macs.value|)
      else With(s, t, tx.(stage := 6))
    case Check(t) => With(s, t, tx.(stage := 2))
    case RemoveIps(t) => With(s, t, tx.(stage := 3, ipDel := RowsIn(IpsOf(s, tx.op.id), tx.op.ips)))
    case RemoveMacs(t) => With(s, t, tx.(stage := 4, macDel := RowsIn(MacsOf(s, tx.op.id), tx.op.macs)))
    case LockRow(t, id) => With(s, t, tx.(locks := tx.locks + {id}))
    case ApplyFlag(t) =>
      With(s, t, tx.(stage := 2,
           writes := map id | id in tx.op.tokens :: s.db[id].store.(enabled := tx.op.enabled, version := tx.now)))
    case Rename(t, id, name) =>
      var store := if id in tx.writes then tx.writes[id] else s.db[id].store;
      var store' := Renamed(store, name, tx.now);
      With(s, t, tx.(locks := tx.locks + {id},
           writes := if store' == store then tx.writes else tx.writes[id := store']))
    case Insert(t, odooId, name) =>
      With(s, t, tx.(born := tx.born[s.nextId := NewStore(odooId, name, tx.now)])).(nextId := s.nextId + 1)
    case Drop(t, id) => With(s, t, tx.(locks := tx.locks + {id}, gone := tx.gone + {id}))
    case ReadRow(t) => With(s, t, tx.(stage := 2, seen := Some(s.db[tx.op.id].store)))
    case ReadIps(t) => With(s, t, tx.(stage := 3, seenIps := IpsOf(s, tx.op.id)))
    case ReadMacs(t) => With(s, t, tx.(stage := 4, seenMacs := MacsOf(s, tx.op.id)))
    case Commit(t) => AfterCommit(s, t)
    case Abort(t) => With(s, t, tx.(status := Aborted))
  }

  // ---- the invariant ----

  ghost predicate NoWrites(tx: Tx) {
    tx.writes == map[] && tx.gone == {} && tx.born == map[]
  }

  /** The row of the operation is locked, is still at the token, and its new
      version is the only row written. */
  ghost predicate Cased(s: State, tx: Tx)
    requires tx.op.Update? || tx.op.Remove? || tx.op.Toggle?
  {
    var id := tx.op.id;
    && id in tx.locks && id in s.db && s.db[id].store.version == tx.op.token
    && tx.writes == map[id := CasWrite(tx.op, s.db[id].store, tx.now)]
    && tx.gone == {} && tx.born == map[]
  }

  ghost predicate UpdateOk(s: State, tx: Tx)
    requires tx.op.Update?
  {
    && (tx.stage <= 1 ==> NoWrites(tx) && tx.ipDel == {} && tx.ipAdd == [] && tx.macDel == {} && tx.macAdd == [])
    && (tx.stage >= 2 ==> Cased(s, tx))
    && (tx.stage >= 2 ==> IpsOk(s.db[tx.op.id].ips, tx) && MacsOk(s.db[tx.op.id].macs, tx))
  }

  ghost predicate IpsOk(list: seq<Entry<Ip>>, tx: Tx)
    requires tx.op.Update?
  {
    match tx.op.patch.ips
    case None => tx.ipDel == {} && tx.ipAdd == []
    case Some(v) =>
      && (tx.stage >= 3 ==> tx.ipDel == RowsNotIn(list, v))
      && (tx.stage >= 4 ==> tx.ipAdd == Inserted(Values(Without(list, tx.ipDel)), v, tx.ipBase))
  }

  ghost predicate MacsOk(list: seq<Entry<Mac>>, tx: Tx)
    requires tx.op.Update?
  {
    match tx.op.patch.macs
    case None => tx.macDel == {} && tx.macAdd == []
    case Some(v) =>
      && (tx.stage >= 5 ==> tx.macDel == RowsNotIn(list, v))
      && (tx.stage >= 6 ==> tx.macAdd == Inserted(Values(Without(list, tx.macDel)), v, tx.macBase))
  }

  /** The deletes a Remove issued are the listed rows, if the store is still at
      its token; otherwise nothing is claimed, for it will not commit them. */
  ghost predicate RemoveOk(s: State, tx: Tx)
    requires tx.op.Remove?
  {
    && tx.ipAdd == [] && tx.macAdd == []
    && (tx.stage <= 4 ==> NoWrites(tx))
    && (tx.stage >= 2 ==> tx.op.token in s.used)
    && (tx.stage <= 2 ==> tx.ipDel == {})
    && (tx.stage <= 3 ==> tx.macDel == {})
    && (tx.op.id in s.db && s.db[tx.op.id].store.version == tx.op.token ==>
          && (tx.stage >= 3 ==> tx.ipDel == RowsIn(s.db[tx.op.id].ips, tx.op.ips))
          && (tx.stage >= 4 ==> tx.macDel == RowsIn(s.db[tx.op.id].macs, tx.op.macs)))
    && (tx.stage >= 5 ==> Cased(s, tx) && (tx.ipDel != {} || tx.macDel != {}))
  }

  ghost predicate BulkOk(s: State, tx: Tx)
    requires tx.op.Bulk?
  {
    && (tx.stage <= 1 ==> NoWrites(tx))
    && tx.gone == {} && tx.born == map[]
    && (tx.stage >= 2 ==>
          && tx.locks == tx.op.tokens.Keys && tx.writes.Keys == tx.op.tokens.Keys && tx.op.tokens.Keys <= s.db.Keys
          && forall id :: id in tx.op.tokens ==>
                            s.db[id].store.version == tx.op.tokens[id]
                            && tx.writes[id] == s.db[id].store.(enabled := tx.op.enabled, version := tx.now))
  }

  ghost predicate SyncOk(s: State, tx: Tx) {
    && tx.writes.Keys <= s.db.Keys
    && (forall id :: id in tx.writes ==>
                       tx.writes[id] == s.db[id].store.(name := tx.writes[id].name, version := tx.now))
    && (forall id :: id in tx.born ==> tx.born[id].store.version == tx.now)
  }

  /** What a reader has read so far belongs to one committed aggregate, as long
      as the version it read is current. */
  ghost predicate ReadOk(s: State, tx: Tx)
    requires tx.op.Read?
  {
    && NoWrites(tx)
    && (tx.stage >= 2 ==> tx.seen.Some? && tx.seen.value.version in s.used)
    && (tx.stage >= 2 && tx.op.id in s.db && s.db[tx.op.id].store.version == tx.seen.value.version ==>
          && tx.seen.value == s.db[tx.op.id].store
          && (tx.stage >= 3 ==> tx.seenIps == s.db[tx.op.id].ips)
          && (tx.stage >= 4 ==> tx.seenMacs == s.db[tx.op.id].macs))
  }

  ghost predicate OpOk(s: State, tx: Tx) {
    match tx.op
    case Update(_, _, _) => UpdateOk(s, tx)
    case Remove(_, _, _, _) => RemoveOk(s, tx)
    case Toggle(_, _, _) => (tx.stage <= 1 ==> NoWrites(tx)) && (tx.stage >= 2 ==> Cased(s, tx))
    case Bulk(_, _) => BulkOk(s, tx)
    case Sync => SyncOk(s, tx)
    case Read(_) => ReadOk(s, tx)
  }

  ghost predicate LiveOk(s: State, tx: Tx) {
    && tx.now !in s.used
    && tx.locks <= s.db.Keys && tx.writes.Keys <= tx.locks && tx.gone <= tx.locks
    && (forall id :: id in tx.born ==> id !in s.db && id < s.nextId)
    && OpOk(s, tx)
  }

  ghost predicate TxOk(s: State, tx: Tx) {
    && (Live(tx) ==> LiveOk(s, tx))
    && (tx.op.Read? ==> ReadOk(s, tx))
  }

  ghost predicate Separate(tx: Tx, tx': Tx) {
    Live(tx) && Live(tx') ==> tx.locks !! tx'.locks && tx.born.Keys !! tx'.born.Keys && tx.now != tx'.now
  }

  ghost predicate DbOk(s: State) {
    forall id :: id in s.db ==> s.db[id].store.version in s.used && id < s.nextId
  }

  ghost predicate Inv(s: State) {
    && DbOk(s)
    && (forall t: nat :: t < |s.txs| ==> TxOk(s, s.txs[t]))
    && (forall t: nat, u: nat :: t < |s.txs| && u < |s.txs| && t != u ==> Separate(s.txs[t], s.txs[u]))
  }

  // ---- every step keeps it ----

  /** What a step of somebody else may do to the state that tx relies on: rows
      tx has locked stay, and a row still at an old version has not changed. */
  ghost predicate Stable(s: State, s': State, tx: Tx) {
    && s.used <= s'.used && s.nextId <= s'.nextId
    && (forall id :: id in s'.db && s'.db[id].store.version in s.used ==> id in s.db && s'.db[id] == s.db[id])
    && (Live(tx) ==>
          && tx.now !in s'.used
          && (forall id :: id in tx.locks ==> id in s.db && id in s'.db && s'.db[id] == s.db[id])
          && (forall id :: id in tx.born ==> id !in s'.db))
  }

  lemma TxStable(s: State, s': State, tx: Tx)
    requires TxOk(s, tx) && DbOk(s) && Stable(s, s', tx)
    ensures TxOk(s', tx)
  {
    if Live(tx) {
      forall id | id in tx.locks ensures id in s'.db {}
    }
    if Live(tx) && tx.op.Sync? {
      forall id | id in tx.writes
        ensures tx.writes[id] == s'.db[id].store.(name := tx.writes[id].name, version := tx.now)
      {
        assert id in tx.locks;
      }
    }
  }

  /** A statement of t that leaves the database and every other transaction alone. */
  lemma LocalStep(s: State, s': State, t: nat, tx': Tx)
    requires Inv(s) && t < |s.txs|
    requires s'.db == s.db && s'.used == s.used && s.nextId <= s'.nextId && s'.txs == s.txs[t := tx']
    requires TxOk(s', tx')
    requires forall u: nat :: u < |s.txs| && u != t ==> Separate(tx', s.txs[u])
    ensures Inv(s')
  {}

  lemma LockedApart(s: State, t: nat, id: Id, tx': Tx, u: nat)
    requires Inv(s) && t < |s.txs| && Live(s.txs[t]) && LockFree(s, t, id)
    requires Live(tx') && tx'.locks == s.txs[t].locks + {id} && tx'.born == s.txs[t].born && tx'.now == s.txs[t].now
    requires u < |s.txs| && u != t
    ensures Separate(tx', s.txs[u])
  {}

  lemma BeginKeepsInv(s: State, a: Action)
    requires Inv(s) && Enabled(s, a) && a.Begin?
    ensures Inv(Do(s, a))
  {
    LocalStep(s, Do(s, a), a.t, Begun(s.txs[a.t].op, a.now));
  }

  lemma LockingStepKeepsInv(s: State, a: Action)
    requires Inv(s) && Enabled(s, a) && (a.Cas? || a.LockRow? || a.Rename? || a.Drop?)
    ensures Inv(Do(s, a))
  {
    var tx, s' := s.txs[a.t], Do(s, a);
    var tx' := s'.txs[a.t];
    assert TxOk(s, tx);
    var id := if a.Cas? then tx.op.id else a.id;
    forall u: nat | u < |s.txs| && u != a.t ensures Separate(tx', s.txs[u]) {
      LockedApart(s, a.t, id, tx', u);
    }
    LocalStep(s, s', a.t, tx');
  }

  /** A statement that takes no lock and adds no row, given what it makes of its own transaction. */
  lemma QuietStepKeepsInv(s: State, s': State, t: nat)
    requires Inv(s) && t < |s.txs| && |s'.txs| == |s.txs|
    requires s'.db == s.db && s'.used == s.used && s.nextId <= s'.nextId && s'.txs == s.txs[t := s'.txs[t]]
    requires var tx, tx' := s.txs[t], s'.txs[t];
             (Live(tx') ==> Live(tx)) && tx'.locks == tx.locks && tx'.born == tx.born && tx'.now == tx.now
    requires TxOk(s', s'.txs[t])
    ensures Inv(s')
  {}

  lemma UpdateStatement(s: State, a: Action)
    requires a.t < |s.txs| && TxOk(s, s.txs[a.t]) && (a.DeleteIps? || a.InsertIps? || a.DeleteMacs? || a.InsertMacs?)
    requires Enabled(s, a)
    ensures TxOk(Do(s, a), Do(s, a).txs[a.t])
  {}

  lemma OtherStatement(s: State, a: Action)
    requires a.t < |s.txs| && TxOk(s, s.txs[a.t]) && DbOk(s) && Enabled(s, a)
    requires a.Check? || a.RemoveIps? || a.RemoveMacs? || a.ApplyFlag?
             || a.ReadRow? || a.ReadIps? || a.ReadMacs? || a.Abort?
    ensures TxOk(Do(s, a), Do(s, a).txs[a.t])
  {}

  lemma StatementKeepsInv(s: State, a: Action)
    requires Inv(s) && Enabled(s, a)
    requires !a.Begin? && !a.Cas? && !a.LockRow? && !a.Rename? && !a.Drop? && !a.Insert? && !a.Commit?
    ensures Inv(Do(s, a))
  {
    assert TxOk(s, s.txs[a.t]);
    if a.DeleteIps? || a.InsertIps? || a.DeleteMacs? || a.InsertMacs? {
      UpdateStatement(s, a);
    } else {
      OtherStatement(s, a);
    }
    QuietStepKeepsInv(s, Do(s, a), a.t);
  }

  lemma InsertKeepsInv(s: State, a: Action)
    requires Inv(s) && Enabled(s, a) && a.Insert?
    ensures Inv(Do(s, a))
  {
    var tx, s' := s.txs[a.t], Do(s, a);
    var tx' := s'.txs[a.t];
    assert TxOk(s, tx);
    forall u: nat | u < |s.txs| && u != a.t ensures Separate(tx', s.txs[u]) {
      assert Separate(tx, s.txs[u]);
      assert TxOk(s, s.txs[u]);
    }
    LocalStep(s, s', a.t, tx');
  }

  /** Every row that a commit installs carries the transaction's own now(). */
  lemma InstalledVersion(s: State, t: nat, id: Id)
    requires Inv(s) && Enabled(s, Commit(t))
    ensures id in s.txs[t].writes ==> s.txs[t].writes[id].version == s.txs[t].now
    ensures id in s.txs[t].born ==> s.txs[t].born[id].store.version == s.txs[t].now
    ensures s.txs[t].now !in s.used
  {}

  lemma CommitStable(s: State, t: nat, u: nat)
    requires Inv(s) && Enabled(s, Commit(t)) && u < |s.txs| && u != t
    ensures Stable(s, AfterCommit(s, t), s.txs[u])
  {}

  lemma CommitKeepsInv(s: State, t: nat)
    requires Inv(s) && Enabled(s, Commit(t))
    ensures Inv(AfterCommit(s, t))
  {
    var tx, s' := s.txs[t], AfterCommit(s, t);
    assert TxOk(s, tx);
    assert DbOk(s') by {
      forall id | id in s'.db ensures s'.db[id].store.version in s'.used && id < s'.nextId {
        InstalledVersion(s, t, id);
      }
    }
    forall u: nat | u < |s'.txs| ensures TxOk(s', s'.txs[u]) {
      if u != t {
        CommitStable(s, t, u);
        TxStable(s, s', s.txs[u]);
      } else if tx.op.Read? {
        assert s'.db == s.db;
      }
    }
    forall u: nat, v: nat | u < |s'.txs| && v < |s'.txs| && u != v ensures Separate(s'.txs[u], s'.txs[v]) {
      assert Separate(s.txs[u], s.txs[v]);
    }
  }

  lemma StepKeepsInv(s: State, a: Action)
    requires Inv(s) && Enabled(s, a)
    ensures Inv(Do(s, a))
  {
    match a
    case Begin(_, _) => BeginKeepsInv(s, a);
    case Cas(_) => LockingStepKeepsInv(s, a);
    case LockRow(_, _) => LockingStepKeepsInv(s, a);
    case Rename(_, _, _) => LockingStepKeepsInv(s, a);
    case Drop(_, _) => LockingStepKeepsInv(s, a);
    case Insert(_, _, _) => InsertKeepsInv(s, a);
    case Commit(t) => CommitKeepsInv(s, t);
    case _ => StatementKeepsInv(s, a);
  }

  /** Any stores, all of whose versions are recorded, and nobody has begun. */
  ghost predicate Init(s: State) {
    DbOk(s) && forall t: nat :: t < |s.txs| ==> s.txs[t] == Begun(s.txs[t].op, 0).(status := Waiting, stage := 0)
  }

  ghost predicate ValidRun(s: State, run: seq<Action>)
    decreases |run|
  {
    run == [] || (Enabled(s, run[0]) && ValidRun(Do(s, run[0]), run[1..]))
  }

  ghost function Final(s: State, run: seq<Action>): State
    requires ValidRun(s, run)
    decreases |run|
  {
    if run == [] then s else Final(Do(s, run[0]), run[1..])
  }

  ghost predicate Reachable(s: State) {
    exists s0, run :: Init(s0) && ValidRun(s0, run) && Final(s0, run) == s
  }

  lemma {:induction false} RunKeepsInv(s: State, run: seq<Action>)
    requires Inv(s) && ValidRun(s, run)
    ensures Inv(Final(s, run))
    decreases |run|
  {
    if run != [] {
      StepKeepsInv(s, run[0]);
      RunKeepsInv(Do(s, run[0]), run[1..]);
    }
  }

  lemma ReachableInv(s: State)
    requires Reachable(s)
    ensures Inv(s)
  {
    var s0, run :| Init(s0) && ValidRun(s0, run) && Final(s0, run) == s;
    RunKeepsInv(s0, run);
  }

  // ---- no lost update ----

  /** A committed PATCH meets the store at exactly the version its client sent,
      and turns it into what the sequential PATCH makes of it; no other store changes. */
  lemma UpdateTakesEffectAtToken(s: State, t: nat)
    requires Reachable(s) && Enabled(s, Commit(t)) && s.txs[t].op.Update?
    ensures var tx, s' := s.txs[t], Do(s, Commit(t));
            && tx.op.id in s.db && s.db[tx.op.id].store.version == tx.op.token
            && s'.db == s.db[tx.op.id := Patched(s.db[tx.op.id], tx.op.patch, tx.now, tx.ipBase, tx.macBase)]
            && s'.db[tx.op.id].store.version != tx.op.token
  {
    ReachableInv(s);
    CommitOfUpdate(s, t);
  }

  lemma CommitOfUpdate(s: State, t: nat)
    requires Inv(s) && Enabled(s, Commit(t)) && s.txs[t].op.Update?
    ensures var tx, s' := s.txs[t], Do(s, Commit(t));
            && tx.op.id in s.db && s.db[tx.op.id].store.version == tx.op.token
            && s'.db == s.db[tx.op.id := Patched(s.db[tx.op.id], tx.op.patch, tx.now, tx.ipBase, tx.macBase)]
            && s'.db[tx.op.id].store.version != tx.op.token
  {
    var tx := s.txs[t];
    assert TxOk(s, tx);
    var a := s.db[tx.op.id];
    WithoutNothing(a.ips);
    WithoutNothing(a.macs);
    assert a.ips + [] == a.ips && a.macs + [] == a.macs;
    assert Installed(a, tx, tx.op.id) == Patched(a, tx.op.patch, tx.now, tx.ipBase, tx.macBase);
    CommitOfOneRow(s, t, tx.op.id);
  }

  lemma CommitOfOneRow(s: State, t: nat, id: Id)
    requires t < |s.txs| && s.txs[t].gone == {} && s.txs[t].born == map[] && s.txs[t].writes.Keys == {id} && id in s.db
    ensures AfterCommit(s, t).db == s.db[id := Installed(s.db[id], s.txs[t], id)]
  {}

  /** A committed entry deletion that deleted anything meets the store at
      exactly its token and removes exactly the listed values; one that deleted
      nothing changes nothing. */
  lemma RemoveTakesEffectAtToken(s: State, t: nat)
    requires Reachable(s) && Enabled(s, Commit(t)) && s.txs[t].op.Remove?
    ensures var tx, s' := s.txs[t], Do(s, Commit(t));
            if tx.ipDel == {} && tx.macDel == {} then s'.db == s.db
            else && tx.op.id in s.db && s.db[tx.op.id].store.version == tx.op.token
                 && AnyListed(s.db[tx.op.id], tx.op.ips, tx.op.macs)
                 && s'.db == s.db[tx.op.id := Removed(s.db[tx.op.id], tx.op.ips, tx.op.macs, tx.now)]
                 && s'.db[tx.op.id].store.version != tx.op.token
  {
    ReachableInv(s);
    CommitOfRemove(s, t);
  }

  lemma CommitOfRemove(s: State, t: nat)
    requires Inv(s) && Enabled(s, Commit(t)) && s.txs[t].op.Remove?
    ensures var tx, s' := s.txs[t], Do(s, Commit(t));
            if tx.ipDel == {} && tx.macDel == {} then s'.db == s.db
            else && tx.op.id in s.db && s.db[tx.op.id].store.version == tx.op.token
                 && AnyListed(s.db[tx.op.id], tx.op.ips, tx.op.macs)
                 && s'.db == s.db[tx.op.id := Removed(s.db[tx.op.id], tx.op.ips, tx.op.macs, tx.now)]
                 && s'.db[tx.op.id].store.version != tx.op.token
  {
    var tx := s.txs[t];
    assert TxOk(s, tx);
    if tx.ipDel != {} || tx.macDel != {} {
      var a := s.db[tx.op.id];
      var ips, macs := Without(a.ips, tx.ipDel), Without(a.macs, tx.macDel);
      assert ips + [] == ips && macs + [] == macs;
      assert Installed(a, tx, tx.op.id) == Removed(a, tx.op.ips, tx.op.macs, tx.now);
      CommitOfOneRow(s, t, tx.op.id);
    }
  }

  /** The single toggle, likewise. */
  lemma ToggleTakesEffectAtToken(s: State, t: nat)
    requires Reachable(s) && Enabled(s, Commit(t)) && s.txs[t].op.Toggle?
    ensures var tx, s' := s.txs[t], Do(s, Commit(t));
            && tx.op.id in s.db && s.db[tx.op.id].store.version == tx.op.token
            && s'.db == s.db[tx.op.id := Toggled(s.db[tx.op.id], tx.op.enabled, tx.now)]
  {
    ReachableInv(s);
    assert TxOk(s, s.txs[t]);
  }

  /** The bulk toggle: every listed store is at its own token, and all of them
      and no others change. */
  lemma BulkTakesEffectAtTokens(s: State, t: nat)
    requires Reachable(s) && Enabled(s, Commit(t)) && s.txs[t].op.Bulk?
    ensures var tx, s' := s.txs[t], Do(s, Commit(t));
            && (forall id :: id in tx.op.tokens ==> id in s.db && s.db[id].store.version == tx.op.tokens[id])
            && s'.db == map id | id in s.db ::
                          if id in tx.op.tokens then Toggled(s.db[id], tx.op.enabled, tx.now) else s.db[id]
  {
    ReachableInv(s);
    assert TxOk(s, s.txs[t]);
  }

  /** The synchronisation is the only blind writer: it may rename, add and drop
      stores, but never touches fence, flag or whitelists of a store it keeps. */
  lemma SyncKeepsAdminData(s: State, t: nat, id: Id)
    requires Reachable(s) && Enabled(s, Commit(t)) && s.txs[t].op.Sync?
    requires var s' := Do(s, Commit(t)); id in s.db && id in s'.db
    ensures var a, a' := s.db[id], Do(s, Commit(t)).db[id];
            && a'.ips == a.ips && a'.macs == a.macs
            && a'.store.fence == a.store.fence && a'.store.enabled == a.store.enabled
            && (a' != a ==> a'.store.version == s.txs[t].now && a.store.version != s.txs[t].now)
  {
    ReachableInv(s);
    assert TxOk(s, s.txs[t]);
  }

  /** What an open reader has seen so far as one aggregate. */
  ghost function SeenBy(tx: Tx): Aggregate
    requires tx.seen.Some?
  {
    Aggregate(tx.seen.value, tx.seenIps, tx.seenMacs)
  }

  ghost predicate FinishedReader(tx: Tx) {
    tx.op.Read? && tx.stage >= 4
  }

  /** tx writes store id, and its client submitted `version` for it. */
  ghost predicate UsesToken(tx: Tx, id: Id, version: int) {
    match tx.op
    case Update(id', token, _) => id' == id && token == version
    case Toggle(id', token, _) => id' == id && token == version
    case Remove(id', token, _, _) => id' == id && token == version && (tx.ipDel != {} || tx.macDel != {})
    case Bulk(tokens, _) => id in tokens && tokens[id] == version
    case _ => false
  }

  /** GetStoreByID reads the row first and the lists in two later statements.
      Torn as that read is, whoever writes with the version it returned
      overwrites exactly the aggregate it returned. */
  lemma AcceptedWriteOverwritesWhatWasSeen(s: State, t: nat, r: nat)
    requires Reachable(s) && Enabled(s, Commit(t)) && r < |s.txs| && FinishedReader(s.txs[r])
    requires s.txs[r].seen.Some? && UsesToken(s.txs[t], s.txs[r].op.id, s.txs[r].seen.value.version)
    ensures s.txs[r].op.id in s.db && s.db[s.txs[r].op.id] == SeenBy(s.txs[r])
    ensures var tx, s', id, was := s.txs[t], Do(s, Commit(t)), s.txs[r].op.id, SeenBy(s.txs[r]);
            id in s'.db &&
            s'.db[id] == match tx.op
                         case Update(_, _, patch) => Patched(was, patch, tx.now, tx.ipBase, tx.macBase)
                         case Remove(_, _, ips, macs) => Removed(was, ips, macs, tx.now)
                         case Toggle(_, _, enabled) => Toggled(was, enabled, tx.now)
                         case Bulk(_, enabled) => Toggled(was, enabled, tx.now)
                         case _ => was
  {
    ReachableInv(s);
    assert TxOk(s, s.txs[t]) && TxOk(s, s.txs[r]);
    match s.txs[t].op
    case Update(_, _, _) => UpdateTakesEffectAtToken(s, t);
    case Remove(_, _, _, _) => RemoveTakesEffectAtToken(s, t);
    case Toggle(_, _, _) => ToggleTakesEffectAtToken(s, t);
    case Bulk(_, _) => BulkTakesEffectAtTokens(s, t);
  }

  /** A version names one aggregate for ever: if a store is at the same version
      before and after any run, nothing about it has changed in between. The run
      starts from any state that meets the invariant, as all reachable ones do. */
  lemma VersionNamesAggregate(s: State, run: seq<Action>, id: Id)
    requires Inv(s) && ValidRun(s, run)
    ensures id in s.db && id in Final(s, run).db && s.db[id].store.version == Final(s, run).db[id].store.version ==>
              s.db[id] == Final(s, run).db[id]
  {
    if id in s.db && id in Final(s, run).db && s.db[id].store.version == Final(s, run).db[id].store.version {
      OldVersionIsUntouched(s, run, id, s.db[id].store.version);
    }
  }

  lemma OldVersionStep(s: State, a: Action, id: Id)
    requires Inv(s) && Enabled(s, a) && id in Do(s, a).db && Do(s, a).db[id].store.version in s.used
    ensures id in s.db && Do(s, a).db[id] == s.db[id]
  {}

  lemma {:induction false} OldVersionIsUntouched(s: State, run: seq<Action>, id: Id, version: int)
    requires Inv(s) && ValidRun(s, run) && version in s.used
    requires id in Final(s, run).db && Final(s, run).db[id].store.version == version
    ensures id in s.db && s.db[id] == Final(s, run).db[id]
    decreases |run|
  {
    if run != [] {
      StepKeepsInv(s, run[0]);
      OldVersionIsUntouched(Do(s, run[0]), run[1..], id, version);
      OldVersionStep(s, run[0], id);
    }
  }
}
