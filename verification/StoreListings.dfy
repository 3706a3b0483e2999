/** The whitelists under concurrent writers: in every interleaving each store's
    listing keeps the order of its rows and never lists a value twice, so a
    committed PATCH leaves exactly the submitted values. */
module StoreListings {
  import opened Whitelist
  import opened StoreModel
  import opened StoreVersions

  ghost predicate ListOrdered(a: Aggregate, nextIp: nat, nextMac: nat) {
    Ordered(a.ips, nextIp) && Ordered(a.macs, nextMac)
  }

  ghost predicate ListsOrdered(s: State) {
    forall id :: id in s.db ==> ListOrdered(s.db[id], s.nextIp, s.nextMac)
  }

  /** The ids that an open PATCH's inserts drew are above the rows they join, and
      spent; stores that a sync inserts have empty lists. */
  ghost predicate DrawsOk(s: State, tx: Tx) {
    && (tx.op.Update? && tx.stage >= 4 && tx.op.patch.ips.Some? && tx.op.id in s.db ==>
          Ordered(s.db[tx.op.id].ips, tx.ipBase) && tx.ipBase + |tx.op.patch.ips.value| <= s.nextIp)
    && (tx.op.Update? && tx.stage >= 6 && tx.op.patch.macs.Some? && tx.op.id in s.db ==>
          Ordered(s.db[tx.op.id].macs, tx.macBase) && tx.macBase + |tx.op.patch.macs.value| <= s.nextMac)
    && (forall id :: id in tx.born ==> tx.born[id].ips == [] && tx.born[id].macs == [])
  }

  ghost predicate ListsInv(s: State) {
    ListsOrdered(s) && forall t: nat :: t < |s.txs| && Live(s.txs[t]) ==> DrawsOk(s, s.txs[t])
  }

  lemma OrderedBelow<V>(list: seq<Entry<V>>, next: nat, next': nat)
    requires Ordered(list, next) && next <= next'
    ensures Ordered(list, next')
  {}

  // ---- statements ----

  lemma PatchDraws(s: State, a: Action)
    requires a.t < |s.txs| && Enabled(s, a) && ListsOrdered(s) && DrawsOk(s, s.txs[a.t]) && TxOk(s, s.txs[a.t])
    requires a.DeleteIps? || a.InsertIps? || a.DeleteMacs? || a.InsertMacs?
    ensures DrawsOk(Do(s, a), Do(s, a).txs[a.t])
  {}

  lemma OtherDraws(s: State, a: Action)
    requires a.t < |s.txs| && Enabled(s, a) && !a.Commit? && (Live(s.txs[a.t]) ==> DrawsOk(s, s.txs[a.t]))
    requires !a.DeleteIps? && !a.InsertIps? && !a.DeleteMacs? && !a.InsertMacs?
    ensures DrawsOk(Do(s, a), Do(s, a).txs[a.t])
  {}

  lemma StatementDraws(s: State, a: Action)
    requires Inv(s) && ListsInv(s) && Enabled(s, a) && !a.Commit?
    ensures DrawsOk(Do(s, a), Do(s, a).txs[a.t])
  {
    assert Live(s.txs[a.t]) ==> DrawsOk(s, s.txs[a.t]) && TxOk(s, s.txs[a.t]);
    if a.DeleteIps? || a.InsertIps? || a.DeleteMacs? || a.InsertMacs? {
      PatchDraws(s, a);
    } else {
      OtherDraws(s, a);
    }
  }

  lemma StatementLeavesRest(s: State, a: Action)
    requires Enabled(s, a) && !a.Commit?
    ensures var s' := Do(s, a);
            && s'.db == s.db && s.nextIp <= s'.nextIp && s.nextMac <= s'.nextMac && |s'.txs| == |s.txs|
            && forall u: nat :: u < |s.txs| && u != a.t ==> s'.txs[u] == s.txs[u]
  {}

  lemma StatementKeepsLists(s: State, a: Action)
    requires Inv(s) && ListsInv(s) && Enabled(s, a) && !a.Commit?
    ensures ListsInv(Do(s, a))
  {
    var s' := Do(s, a);
    StatementLeavesRest(s, a);
    forall id | id in s'.db ensures ListOrdered(s'.db[id], s'.nextIp, s'.nextMac) {
      assert ListOrdered(s.db[id], s.nextIp, s.nextMac);
    }
    forall t: nat | t < |s'.txs| && Live(s'.txs[t]) ensures DrawsOk(s', s'.txs[t]) {
      if t == a.t {
        StatementDraws(s, a);
      } else {
        assert DrawsOk(s, s.txs[t]);
      }
    }
  }

  // ---- commits ----

  lemma PatchedOrdered(a: Aggregate, p: Patch, now: int, ipBase: nat, macBase: nat, nextIp: nat, nextMac: nat)
    requires ListOrdered(a, nextIp, nextMac)
    requires p.ips.Some? ==> Ordered(a.ips, ipBase) && ipBase + |p.ips.value| <= nextIp
    requires p.macs.Some? ==> Ordered(a.macs, macBase) && macBase + |p.macs.value| <= nextMac
    ensures ListOrdered(Patched(a, p, now, ipBase, macBase), nextIp, nextMac)
  {
    if p.ips.Some? {
      ReplaceIsExactAndMinimal(a.ips, p.ips.value, ipBase);
      OrderedBelow(Replaced(a.ips, p.ips.value, ipBase), ipBase + |p.ips.value|, nextIp);
    }
    if p.macs.Some? {
      ReplaceIsExactAndMinimal(a.macs, p.macs.value, macBase);
      OrderedBelow(Replaced(a.macs, p.macs.value, macBase), macBase + |p.macs.value|, nextMac);
    }
  }

  lemma RemovedOrdered(a: Aggregate, ips: seq<Ip>, macs: seq<Mac>, now: int, nextIp: nat, nextMac: nat)
    requires ListOrdered(a, nextIp, nextMac)
    ensures ListOrdered(Removed(a, ips, macs, now), nextIp, nextMac)
  {
    RemovalOrdered(a.ips, ips, nextIp);
    RemovalOrdered(a.macs, macs, nextMac);
  }

  /** What a commit that is neither a PATCH nor an entry deletion does to a list: nothing. */
  lemma OthersLeaveLists(s: State, t: nat, id: Id)
    requires Inv(s) && Enabled(s, Commit(t)) && !s.txs[t].op.Update? && !s.txs[t].op.Remove?
    requires id in AfterCommit(s, t).db
    ensures var b := AfterCommit(s, t).db[id];
            if id in s.txs[t].born then b == s.txs[t].born[id]
            else id in s.db && b.ips == s.db[id].ips && b.macs == s.db[id].macs
  {}

  lemma CommitKeepsListsOrdered(s: State, t: nat)
    requires Inv(s) && ListsInv(s) && Enabled(s, Commit(t))
    ensures ListsOrdered(AfterCommit(s, t))
  {
    var tx, s' := s.txs[t], AfterCommit(s, t);
    assert DrawsOk(s, tx);
    if tx.op.Update? {
      CommitOfUpdate(s, t);
      PatchedOrdered(s.db[tx.op.id], tx.op.patch, tx.now, tx.ipBase, tx.macBase, s.nextIp, s.nextMac);
    } else if tx.op.Remove? {
      CommitOfRemove(s, t);
      if tx.ipDel != {} || tx.macDel != {} {
        RemovedOrdered(s.db[tx.op.id], tx.op.ips, tx.op.macs, tx.now, s.nextIp, s.nextMac);
      }
    } else {
      forall id | id in s'.db ensures ListOrdered(s'.db[id], s'.nextIp, s'.nextMac) {
        OthersLeaveLists(s, t, id);
      }
    }
  }

  lemma CommitKeepsLists(s: State, t: nat)
    requires Inv(s) && ListsInv(s) && Enabled(s, Commit(t))
    ensures ListsInv(AfterCommit(s, t))
  {
    var s' := AfterCommit(s, t);
    CommitKeepsListsOrdered(s, t);
    forall u: nat | u < |s'.txs| && Live(s'.txs[u]) ensures DrawsOk(s', s'.txs[u]) {
      assert DrawsOk(s, s.txs[u]) && TxOk(s, s.txs[u]);
      CommitStable(s, t, u);
    }
  }

  lemma StepKeepsLists(s: State, a: Action)
    requires Inv(s) && ListsInv(s) && Enabled(s, a)
    ensures ListsInv(Do(s, a))
  {
    if a.Commit? {
      CommitKeepsLists(s, a.t);
    } else {
      StatementKeepsLists(s, a);
    }
  }

  lemma {:induction false} RunKeepsLists(s: State, run: seq<Action>)
    requires Inv(s) && ListsInv(s) && ValidRun(s, run)
    ensures Inv(Final(s, run)) && ListsInv(Final(s, run))
    decreases |run|
  {
    if run != [] {
      StepKeepsInv(s, run[0]);
      StepKeepsLists(s, run[0]);
      RunKeepsLists(Do(s, run[0]), run[1..]);
    }
  }

  // ---- the guarantees ----

  /** From tables that meet their constraints, every interleaving leads to such
      tables: rows in id order, no value listed twice. */
  lemma ListingsStayOrdered(s0: State, run: seq<Action>, id: Id)
    requires Init(s0) && ListsOrdered(s0) && ValidRun(s0, run) && id in Final(s0, run).db
    ensures ListOrdered(Final(s0, run).db[id], Final(s0, run).nextIp, Final(s0, run).nextMac)
  {
    RunKeepsLists(s0, run);
  }

  /** A PATCH that commits in any interleaving leaves each submitted list with
      exactly the submitted values, none twice, and each absent list as it was. */
  lemma CommittedPatchListsSubmitted(s0: State, run: seq<Action>, t: nat)
    requires Init(s0) && ListsOrdered(s0) && ValidRun(s0, run) && Enabled(Final(s0, run), Commit(t))
    requires Final(s0, run).txs[t].op.Update?
    ensures var s := Final(s0, run);
            var op, s' := s.txs[t].op, Do(s, Commit(t));
            && op.id in s.db && op.id in s'.db && ListOrdered(s'.db[op.id], s'.nextIp, s'.nextMac)
            && var was, now := s.db[op.id], s'.db[op.id];
            && (if op.patch.ips.Some? then forall v :: v in Values(now.ips) <==> v in op.patch.ips.value
                else now.ips == was.ips)
            && (if op.patch.macs.Some? then forall v :: v in Values(now.macs) <==> v in op.patch.macs.value
                else now.macs == was.macs)
  {
    RunKeepsLists(s0, run);
    var s := Final(s0, run);
    var tx := s.txs[t];
    assert DrawsOk(s, tx);
    CommitOfUpdate(s, t);
    CommitKeepsListsOrdered(s, t);
    if tx.op.patch.ips.Some? {
      ReplaceIsExactAndMinimal(s.db[tx.op.id].ips, tx.op.patch.ips.value, tx.ipBase);
    }
    if tx.op.patch.macs.Some? {
      ReplaceIsExactAndMinimal(s.db[tx.op.id].macs, tx.op.patch.macs.value, tx.macBase);
    }
  }
}
