/** The writers of the stores service, each as the one transaction it is, on the
    tables it changes. A transaction that fails is rolled back.
 */
module StoreService {
  import opened Results
  import opened Lists
  import opened Whitelist
  import opened StoreModel
  import opened StoreSync

  datatype Error = NotFound | Conflict | BadAddress | BulkConflict(failed: seq<Id>) | DatabaseError

  /** The statements that may fail; a failure rolls the transaction back. */
  datatype Statement =
    | FindStore | CompareAndSet | CheckExists | DeleteIps | InsertIps | DeleteMacs | InsertMacs | ReadLists
    | LockRows | SetFlags | Upsert | FindStale | DropStale | CommitTx

  /** One entry of a deletion request, echoed as submitted. */
  datatype RemovalResult = RemovalResult(value: string, kind: string, success: bool, error: string)

  /** One (id, updated_at) pair of a bulk request. */
  datatype StoreRef = StoreRef(id: Id, token: int)

  datatype SyncOutcome = FetchFailed | RolledBack | Completed(inserted: nat, updated: nat, deleted: nat)

  datatype ToggleResult = ToggleResult(id: Id, enabled: bool, version: int)

  function NewRemovalResult(value: string, kind: string, success: bool): (r: RemovalResult)
    ensures r.value == value && r.kind == kind && r.success == success && (r.error == "" <==> success)
  {
    RemovalResult(value, kind, success, if success then "" else "not found in whitelist")
  }

  /** Some address does not parse. */
  predicate Unparsable<T>(values: seq<string>, parse: string -> Option<T>) {
    exists i :: 0 <= i < |values| && parse(values[i]).None?
  }

  /** The parsed forms of `values`, if every one of them parses. */
  function Parsed<T>(values: seq<string>, parse: string -> Option<T>): (r: Option<seq<T>>)
    ensures r.None? <==> Unparsable(values, parse)
    ensures r.Some? ==> |r.value| == |values| && forall i :: 0 <= i < |values| ==> parse(values[i]) == Some(r.value[i])
  {
    if forall i :: 0 <= i < |values| ==> parse(values[i]).Some?
    then Some(seq(|values|, i requires 0 <= i < |values| && parse(values[i]).Some? => parse(values[i]).value))
    else None
  }

  method ParseAddresses<T(0)>(values: seq<string>, parse: string -> Option<T>) returns (r: Option<seq<T>>)
    ensures r == Parsed(values, parse)
  {
    var parsed: seq<T> := [];
    for i := 0 to |values|
      invariant |parsed| == i
      invariant forall k :: 0 <= k < i ==> parse(values[k]) == Some(parsed[k])
    {
      var p := parse(values[i]);
      if p.None? {
        return None;
      }
      parsed := parsed + [p.value];
    }
    r := Some(parsed);
    assert parsed == Parsed(values, parse).value;
  }

  /** An absent list stays absent; a submitted one must parse. */
  function ParsedIf<T>(values: Option<seq<string>>, parse: string -> Option<T>): (r: Option<Option<seq<T>>>)
    ensures r.None? <==> values.Some? && Unparsable(values.value, parse)
    ensures r.Some? ==> (r.value.Some? <==> values.Some?)
    ensures r.Some? && r.value.Some? ==>
              && |r.value.value| == |values.value|
              && forall i :: 0 <= i < |values.value| ==> parse(values.value[i]) == Some(r.value.value[i])
  {
    if values.None? then Some(None)
    else if Parsed(values.value, parse).None? then None
    else Some(Some(Parsed(values.value, parse).value))
  }

  function Deleted<V(==,!new)>(list: seq<Entry<V>>, values: seq<V>): (r: seq<V>)
    ensures forall v :: v in r <==> v in values && v in Values(list)
    ensures r == [] <==> RowsIn(list, values) == {}
  {
    if list == [] then []
    else
      var rest := Deleted(list[1..], values);
      assert list == [list[0]] + list[1..];
      assert Values(list) == [list[0].value] + Values(list[1..]);
      assert RowsIn(list, values) ==
             (if list[0].value in values then {list[0].row} else {}) + RowsIn(list[1..], values) by {
        assert forall i :: 0 <= i < |list[1..]| ==> list[1..][i] == list[i + 1];
      }
      (if list[0].value in values then [list[0].value] else []) + rest
  }

  /** The results of one kind of address: a submitted value succeeds exactly
      when it is listed. */
  ghost predicate ResultsFor<T>(results: seq<RemovalResult>, raw: seq<string>, values: seq<T>, kind: string,
                                listed: seq<T>)
    requires |raw| == |values|
  {
    && |results| == |raw|
    && forall i :: 0 <= i < |raw| ==>
                     && results[i].value == raw[i] && results[i].kind == kind
                     && (results[i].success <==> values[i] in listed)
                     && (results[i].error == "" <==> values[i] in listed)
  }

  /** The loop that turns the returned rows into a lookup table. */
  method Collected<T(==,!new)>(deleted: seq<T>) returns (found: set<T>)
    ensures forall v :: v in found <==> v in deleted
  {
    found := {};
    for i := 0 to |deleted|
      invariant found == set k | 0 <= k < i :: deleted[k]
    {
      found := found + {deleted[i]};
    }
  }

  /** The loop over the submitted values, once it is known which rows went. */
  method ReportRemovals<T(==,!new)>(raw: seq<string>, values: seq<T>, deleted: seq<T>, kind: string,
                                    ghost listed: seq<T>)
    returns (results: seq<RemovalResult>, any: bool)
    requires |raw| == |values|
    requires forall v :: v in deleted <==> v in values && v in listed
    ensures ResultsFor(results, raw, values, kind, listed)
    ensures any <==> deleted != []
  {
    var found := Collected(deleted);
    results, any := [], false;
    for i := 0 to |raw|
      invariant |results| == i
      invariant forall k :: 0 <= k < i ==> results[k] == NewRemovalResult(raw[k], kind, values[k] in listed)
      invariant any <==> exists k :: 0 <= k < i && values[k] in listed
    {
      var ok := values[i] in found;
      assert ok <==> values[i] in deleted;
      any := any || ok;
      results := results + [NewRemovalResult(raw[i], kind, ok)];
    }
    if deleted != [] {
      assert deleted[0] in deleted;
    }
  }

  /** What stops the statements on one submitted list: an address that does not
      parse, or a statement that fails. */
  function ListError<T>(raw: Option<seq<string>>,
                        parse: string -> Option<T>, statements: set<Statement>, down: set<Statement>): Option<Error> {
    if raw.None? then None
    else if Parsed(raw.value, parse).None? then Some(BadAddress)
    else if statements !! down then None
    else Some(DatabaseError)
  }

  /** A list stops a call with BadAddress exactly if it is submitted and some
      address does not parse, and with a database error exactly if all parse and
      one of its statements fails. */
  lemma ListErrorIff<T>(raw: Option<seq<string>>,
                        parse: string -> Option<T>, statements: set<Statement>, down: set<Statement>)
    ensures ListError(raw, parse, statements, down) == Some(BadAddress) <==> raw.Some? && Unparsable(raw.value, parse)
    ensures ListError(raw, parse, statements, down) == Some(DatabaseError) <==>
            raw.Some? && !Unparsable(raw.value, parse) && exists x :: x in statements && x in down
    ensures ListError(raw, parse, statements, down) == None <==>
            raw.None? || (!Unparsable(raw.value, parse) && forall x :: x in statements ==> x !in down)
  {}

  /** An empty list of entries to remove reaches no statement. */
  function Nonempty(raw: seq<string>): Option<seq<string>> {
    if |raw| == 0 then None else Some(raw)
  }

  /** DELETE ... RETURNING on one list, with the report on every submitted value. */
  method RemoveListed<V(==,!new,0)>(list: seq<Entry<V>>, raw: seq<string>, parse: string -> Option<V>, kind: string,
                                    delete: Statement, down: set<Statement>, ghost next: nat)
    returns (error: Option<Error>, list': seq<Entry<V>>, results: seq<RemovalResult>, any: bool)
    requires Ordered(list, next)
    ensures Ordered(list', next)
    ensures error == ListError(Nonempty(raw), parse, {delete}, down)
    ensures error.None? ==>
              && Parsed(raw, parse).Some?
              && var values := Parsed(raw, parse).value;
              && list' == Without(list, RowsIn(list, values))
              && ResultsFor(results, raw, values, kind, Values(list))
              && (any <==> RowsIn(list, values) != {})
  {
    error, list', results, any := None, list, [], false;
    if |raw| == 0 {
      NothingRemoved(list, Parsed(raw, parse).value);
      return;
    }
    var parsed := ParseAddresses(raw, parse);
    if parsed.None? {
      error := Some(BadAddress);
      return;
    }
    if delete in down {
      error := Some(DatabaseError);
      return;
    }
    RemovalOrdered(list, parsed.value, next);
    var deleted := Deleted(list, parsed.value);
    list' := Without(list, RowsIn(list, parsed.value));
    results, any := ReportRemovals(raw, parsed.value, deleted, kind, Values(list));
  }

  /** What stops an entry deletion on a store that is at its token. */
  function RemovalError(a: Aggregate, ips: seq<string>, macs: seq<string>, parseIp: string -> Option<Ip>,
                        parseMac: string -> Option<Mac>, down: set<Statement>): Option<Error> {
    var ipError := ListError(Nonempty(ips), parseIp, {DeleteIps}, down);
    var macError := ListError(Nonempty(macs), parseMac, {DeleteMacs}, down);
    if ipError.Some? then ipError
    else if macError.Some? then macError
    else if CompareAndSet in down && AnyListed(a, Parsed(ips, parseIp).value, Parsed(macs, parseMac).value)
    then Some(DatabaseError)
    else if CommitTx in down then Some(DatabaseError)
      else None
  }

  lemma RemovalErrorIff(a: Aggregate, ips: seq<string>, macs: seq<string>, parseIp: string -> Option<Ip>,
                        parseMac: string -> Option<Mac>, down: set<Statement>)
    ensures RemovalError(a, ips, macs, parseIp, parseMac, down) == Some(BadAddress) <==>
            || Unparsable(ips, parseIp)
            || ((ips != [] ==> DeleteIps !in down) && Unparsable(macs, parseMac))
    ensures RemovalError(a, ips, macs, parseIp, parseMac, down) == None <==>
            && !Unparsable(ips, parseIp) && (ips != [] ==> DeleteIps !in down)
            && !Unparsable(macs, parseMac) && (macs != [] ==> DeleteMacs !in down)
            && CommitTx !in down
            && (CompareAndSet in down ==>
                  && NoneListed(a.ips, Parsed(ips, parseIp).value) && NoneListed(a.macs, Parsed(macs, parseMac).value))
    ensures RemovalError(a, ips, macs, parseIp, parseMac, down) in {None, Some(BadAddress), Some(DatabaseError)}
  {
    ListErrorIff(Nonempty(ips), parseIp, {DeleteIps}, down);
    ListErrorIff(Nonempty(macs), parseMac, {DeleteMacs}, down);
    if !Unparsable(ips, parseIp) && !Unparsable(macs, parseMac) {
      NoRowsListed(a.ips, Parsed(ips, parseIp).value);
      NoRowsListed(a.macs, Parsed(macs, parseMac).value);
    }
  }

  /** Both lists' deletions, and the new version if anything went. */
  method RemoveEntries(a: Aggregate, ips: seq<string>, macs: seq<string>, parseIp: string -> Option<Ip>,
                       parseMac: string -> Option<Mac>, now: int, down: set<Statement>, ghost nextIp: nat,
                       ghost nextMac: nat)
    returns (error: Option<Error>, a': Aggregate, results: seq<RemovalResult>)
    requires Ordered(a.ips, nextIp) && Ordered(a.macs, nextMac)
    ensures error == RemovalError(a, ips, macs, parseIp, parseMac, down)
    ensures Ordered(a'.ips, nextIp) && Ordered(a'.macs, nextMac) && a'.store.odooId == a.store.odooId
    ensures error.None? ==>
              && Parsed(ips, parseIp).Some? && Parsed(macs, parseMac).Some?
              && a' == Removed(a, Parsed(ips, parseIp).value, Parsed(macs, parseMac).value, now)
              && |results| == |ips| + |macs|
              && ResultsFor(results[..|ips|], ips, Parsed(ips, parseIp).value, "ip", Values(a.ips))
              && ResultsFor(results[|ips|..], macs, Parsed(macs, parseMac).value, "mac", Values(a.macs))
  {
    a', results := a, [];
    var ipError, ipList, ipResults, ipsAny := RemoveListed(a.ips, ips, parseIp, "ip", DeleteIps, down, nextIp);
    if ipError.Some? {
      return ipError, a', results;
    }
    var macError, macList, macResults, macsAny := RemoveListed(a.macs, macs, parseMac, "mac", DeleteMacs, down,
                                                               nextMac);
    if macError.Some? {
      return macError, a', results;
    }
    results := ipResults + macResults;
    assert results[..|ips|] == ipResults && results[|ips|..] == macResults;
    if ipsAny || macsAny {
      if CompareAndSet in down {
        return Some(DatabaseError), a', results;
      }
      a' := Aggregate(Fenced(a.store, NO_FENCE, now), ipList, macList);
    } else {
      WithoutNothing(a.ips);
      WithoutNothing(a.macs);
    }
    error := if CommitTx in down then Some(DatabaseError) else None;
  }

  /** The `submitted` map of a bulk request; a repeated id keeps its last token. */
  function Submitted(refs: seq<StoreRef>): map<Id, int> {
    SubmittedUpTo(refs, |refs|)
  }

  function SubmittedUpTo(refs: seq<StoreRef>, n: nat): map<Id, int>
    requires n <= |refs|
  {
    if n == 0 then map[] else SubmittedUpTo(refs, n - 1)[refs[n - 1].id := refs[n - 1].token]
  }

  lemma {:induction false} SubmittedDistinct(refs: seq<StoreRef>, n: nat, i: nat)
    requires forall j, k :: 0 <= j < k < |refs| ==> refs[j].id != refs[k].id
    requires i < n <= |refs|
    ensures refs[i].id in SubmittedUpTo(refs, n) && SubmittedUpTo(refs, n)[refs[i].id] == refs[i].token
  {
    if i < n - 1 {
      SubmittedDistinct(refs, n - 1, i);
    }
  }

  predicate Fails(stores: map<Id, Aggregate>, tokens: map<Id, int>, id: Id) {
    id in tokens && (id !in stores || stores[id].store.version != tokens[id])
  }

  /** The table constraints: serial ids, UNIQUE odoo_store_id, UNIQUE (store, value). */
  ghost predicate Constraints(t: Table, nextId: Id, nextIp: nat, nextMac: nat) {
    && Indexed(t)
    && forall id :: id in t.stores ==>
                      id < nextId && Ordered(t.stores[id].ips, nextIp) && Ordered(t.stores[id].macs, nextMac)
  }

  /** Rewriting one store keeps them, if its link stays and its lists are ordered. */
  lemma KeepsConstraints(t: Table, id: Id, a: Aggregate, nextId: Id,
                         nextIp: nat, nextMac: nat, nextIp': nat, nextMac': nat)
    requires Constraints(t, nextId, nextIp, nextMac) && nextIp <= nextIp' && nextMac <= nextMac'
    requires id in t.stores && a.store.odooId == t.stores[id].store.odooId
    requires Ordered(a.ips, nextIp') && Ordered(a.macs, nextMac')
    ensures Constraints(t.(stores := t.stores[id := a]), nextId, nextIp', nextMac')
  {}

  /** The delete-then-insert of a submitted list; an absent list is left alone. */
  method DiffReplace<V(==,!new,0)>(list: seq<Entry<V>>, raw: Option<seq<string>>,
                                   parse: string -> Option<V>, delete: Statement,
                                   insert: Statement, down: set<Statement>, next: nat)
    returns (error: Option<Error>, list': seq<Entry<V>>, next': nat)
    requires Ordered(list, next)
    ensures error == ListError(raw, parse, {delete, insert}, down)
    ensures error.None? ==>
              && ParsedIf(raw, parse).Some?
              && list' == ReplacedIf(list, ParsedIf(raw, parse).value, next) && Ordered(list', next')
    ensures next <= next'
  {
    error, list', next' := None, list, next;
    if raw.None? {
      return;
    }
    var parsed := ParseAddresses(raw.value, parse);
    if parsed.None? {
      error := Some(BadAddress);
      return;
    }
    if delete in down {
      error := Some(DatabaseError);
      return;
    }
    ReplaceIsExactAndMinimal(list, parsed.value, next);
    list' := Without(list, RowsNotIn(list, parsed.value));
    if insert in down {
      error := Some(DatabaseError);
      return;
    }
    list', next' := list' + Inserted(Values(list'), parsed.value, next), next + |parsed.value|;
  }

  /** What stops a PATCH on a store that is at its token. */
  function PatchError(ips: Option<seq<string>>, macs: Option<seq<string>>, parseIp: string -> Option<Ip>,
                      parseMac: string -> Option<Mac>, down: set<Statement>): Option<Error> {
    var ipError := ListError(ips, parseIp, {DeleteIps, InsertIps}, down);
    var macError := ListError(macs, parseMac, {DeleteMacs, InsertMacs}, down);
    if ipError.Some? then ipError
    else if macError.Some? then macError
    else if ReadLists in down || CommitTx in down then Some(DatabaseError)
    else None
  }

  /** The error is that of the first list that has one: BadAddress exactly if an
      address of the IPs does not parse, or one of the MACs does not and nothing
      stopped the call at the IPs. */
  lemma PatchErrorIff(ips: Option<seq<string>>, macs: Option<seq<string>>, parseIp: string -> Option<Ip>,
                      parseMac: string -> Option<Mac>, down: set<Statement>)
    ensures PatchError(ips, macs, parseIp, parseMac, down) == Some(BadAddress) <==>
            || (ips.Some? && Unparsable(ips.value, parseIp))
            || (&& (ips.Some? ==> DeleteIps !in down && InsertIps !in down)
                && macs.Some? && Unparsable(macs.value, parseMac))
    ensures PatchError(ips, macs, parseIp, parseMac, down) == None <==>
            && (ips.Some? ==> !Unparsable(ips.value, parseIp) && DeleteIps !in down && InsertIps !in down)
            && (macs.Some? ==> !Unparsable(macs.value, parseMac) && DeleteMacs !in down && InsertMacs !in down)
            && ReadLists !in down && CommitTx !in down
    ensures PatchError(ips, macs, parseIp, parseMac, down) in {None, Some(BadAddress), Some(DatabaseError)}
  {
    ListErrorIff(ips, parseIp, {DeleteIps, InsertIps}, down);
    ListErrorIff(macs, parseMac, {DeleteMacs, InsertMacs}, down);
  }

  lemma ListedIffSubmitted<V>(list: seq<Entry<V>>, raw: Option<seq<string>>, parse: string -> Option<V>)
    requires ParsedIf(raw, parse).Some?
    requires raw.Some? ==> forall v :: v in Values(list) <==> v in ParsedIf(raw, parse).value.value
    ensures raw.Some? ==>
              forall v :: v in Values(list) <==> exists i :: 0 <= i < |raw.value| && parse(raw.value[i]) == Some(v)
  {
    if raw.Some? {
      var values := ParsedIf(raw, parse).value.value;
      forall v ensures v in values <==> exists i :: 0 <= i < |raw.value| && parse(raw.value[i]) == Some(v) {
        if v in values {
          var i :| 0 <= i < |values| && values[i] == v;
          assert parse(raw.value[i]) == Some(v);
        }
        if i :| 0 <= i < |raw.value| && parse(raw.value[i]) == Some(v) {
          assert values[i] == v;
        }
      }
    }
  }

  /** An accepted PATCH, from the text of the request: a submitted list ends with
      exactly the parsed addresses, and one that is not submitted stays. */
  lemma PatchedLists(a: Aggregate, fence: Fence, ips: Option<seq<string>>, macs: Option<seq<string>>,
                     parseIp: string -> Option<Ip>, parseMac: string -> Option<Mac>, now: int, nextIp: nat,
                     nextMac: nat)
    requires Ordered(a.ips, nextIp) && Ordered(a.macs, nextMac)
    requires ParsedIf(ips, parseIp).Some? && ParsedIf(macs, parseMac).Some?
    ensures var b := Patched(a, Patch(fence, ParsedIf(ips, parseIp).value, ParsedIf(macs, parseMac).value), now, nextIp,
                             nextMac);
            && (if ips.None? then b.ips == a.ips
                else forall v :: v in Values(b.ips) <==>
                                 exists i :: 0 <= i < |ips.value| && parseIp(ips.value[i]) == Some(v))
            && (if macs.None? then b.macs == a.macs
                else forall v :: v in Values(b.macs) <==>
                                 exists i :: 0 <= i < |macs.value| && parseMac(macs.value[i]) == Some(v))
  {
    var p := Patch(fence, ParsedIf(ips, parseIp).value, ParsedIf(macs, parseMac).value);
    PatchMeaning(a, p, now, nextIp, nextMac);
    ListedIffSubmitted(Patched(a, p, now, nextIp, nextMac).ips, ips, parseIp);
    ListedIffSubmitted(Patched(a, p, now, nextIp, nextMac).macs, macs, parseMac);
  }

  /** Both whole-set replaces of a PATCH, stopping at the first error. */
  method ReplaceLists(a: Aggregate, ips: Option<seq<string>>, macs: Option<seq<string>>, parseIp: string -> Option<Ip>,
                      parseMac: string -> Option<Mac>, down: set<Statement>, nextIp: nat, nextMac: nat)
    returns (error: Option<Error>, a': Aggregate, nextIp': nat, nextMac': nat)
    requires Ordered(a.ips, nextIp) && Ordered(a.macs, nextMac)
    ensures error == PatchError(ips, macs, parseIp, parseMac, down)
    ensures error.None? ==>
              && ParsedIf(ips, parseIp).Some? && ParsedIf(macs, parseMac).Some?
              && a' == Aggregate(a.store, ReplacedIf(a.ips, ParsedIf(ips, parseIp).value, nextIp),
                                 ReplacedIf(a.macs, ParsedIf(macs, parseMac).value, nextMac))
              && Ordered(a'.ips, nextIp') && Ordered(a'.macs, nextMac')
    ensures nextIp <= nextIp' && nextMac <= nextMac'
  {
    a', nextIp', nextMac' := a, nextIp, nextMac;
    var ipError, ipList, ipNext := DiffReplace(a.ips, ips, parseIp, DeleteIps, InsertIps, down, nextIp);
    nextIp' := ipNext;
    if ipError.Some? {
      return ipError, a', nextIp', nextMac';
    }
    var macError, macList, macNext := DiffReplace(a.macs, macs, parseMac, DeleteMacs, InsertMacs, down, nextMac);
    nextMac' := macNext;
    if macError.Some? {
      return macError, a', nextIp', nextMac';
    }
    a' := Aggregate(a.store, ipList, macList);
    error := if ReadLists in down || CommitTx in down then Some(DatabaseError) else None;
  }

  /** The comparison loops of a bulk request: stale ids among the rows found,
      then, in the map's own order, the ids that no row was found for. */
  method FailedIds(stores: map<Id, Aggregate>, submitted: map<Id, int>, scan: seq<Id>, order: seq<Id>)
    returns (failed: seq<Id>)
    requires forall id :: id in scan <==> id in submitted && id in stores
    requires NoRepeats(scan)
    requires NoRepeats(order) && forall id :: id in order <==> id in submitted
    ensures NoRepeats(failed) && forall id :: id in failed <==> Fails(stores, submitted, id)
  {
    var found: set<Id> := {};
    failed := [];
    for i := 0 to |scan|
      invariant found == set k | 0 <= k < i :: scan[k]
      invariant NoRepeats(failed)
      invariant forall id :: id in failed <==> id in found && Fails(stores, submitted, id)
    {
      var id := scan[i];
      assert id in scan && id !in found;
      found := found + {id};
      if stores[id].store.version != submitted[id] {
        failed := failed + [id];
      }
    }
    for i := 0 to |order|
      invariant NoRepeats(failed)
      invariant forall id :: id in failed <==> Fails(stores, submitted, id) && (id in found || id in order[..i])
    {
      var id := order[i];
      assert id in order && id !in order[..i];
      assert order[..i + 1] == order[..i] + [id];
      if id !in found {
        failed := failed + [id];
      }
    }
    assert order[..|order|] == order;
  }

  class Stores {
    const parseIp: string -> Option<Ip>
    const parseMac: string -> Option<Mac>
    var stores: map<Id, Aggregate>
    var links: map<OdooKey, Id>
    var nextId: Id
    var nextIp: nat
    var nextMac: nat

    ghost predicate Valid()
      reads this
    {
      Constraints(Table(stores, links), nextId, nextIp, nextMac)
    }

    constructor (parseIp: string -> Option<Ip>, parseMac: string -> Option<Mac>)
      ensures Valid() && stores == map[] && this.parseIp == parseIp && this.parseMac == parseMac
    {
      this.parseIp, this.parseMac := parseIp, parseMac;
      stores, links, nextId, nextIp, nextMac := map[], map[], 1, 0, 0;
    }

    /** What a compare-and-set that found no row says, after its second look. */
    function MissError(id: Id, down: set<Statement>): Error
      reads this
    {
      if CheckExists in down then DatabaseError else if id in stores then Conflict else NotFound
    }

    /** UpdateStore: compare-and-set on the row, then replace the submitted lists. */
    method UpdateStore(id: Id, token: int, fence: Fence, ips: Option<seq<string>>, macs: Option<seq<string>>, now: int,
                       down: set<Statement>)
      returns (r: Result<Aggregate, Error>)
      requires Valid()
      modifies this
      ensures Valid() && nextId == old(nextId) && links == old(links)
      ensures r.Failure? ==> stores == old(stores)
      ensures CompareAndSet in down ==> r == Failure(DatabaseError)
      ensures r == Failure(NotFound) <==> CompareAndSet !in down && CheckExists !in down && id !in old(stores)
      ensures r == Failure(Conflict) <==>
              && CompareAndSet !in down && CheckExists !in down
              && id in old(stores) && old(stores)[id].store.version != token
      ensures CheckExists in down && !(id in old(stores) && old(stores)[id].store.version == token) ==>
                r == Failure(DatabaseError)
      ensures CompareAndSet !in down && AtToken(old(stores), id, token) ==>
                match PatchError(ips, macs, parseIp, parseMac, down)
                case Some(e) => r == Failure(e)
                case None =>
                  && ParsedIf(ips, parseIp).Some? && ParsedIf(macs, parseMac).Some? && r.Success?
                  && r.value == Patched(old(stores)[id], Patch(fence, ParsedIf(ips, parseIp).value,
                                                               ParsedIf(macs, parseMac).value),
                                        now, old(nextIp), old(nextMac))
                  && stores == old(stores)[id := r.value]
      ensures r == Failure(BadAddress) <==>
              && CompareAndSet !in down && id in old(stores) && old(stores)[id].store.version == token
              && (|| (ips.Some? && Unparsable(ips.value, parseIp))
                  || (&& (ips.Some? ==> DeleteIps !in down && InsertIps !in down)
                      && macs.Some? && Unparsable(macs.value, parseMac)))
      ensures r.Failure? ==> r.error in {NotFound, Conflict, BadAddress, DatabaseError}
    {
      if CompareAndSet in down {
        return Failure(DatabaseError);
      }
      if !AtToken(stores, id, token) {
        return Failure(MissError(id, down));
      }
      var row := stores[id].(store := Fenced(stores[id].store, fence, now));
      PatchErrorIff(ips, macs, parseIp, parseMac, down);
      var error, updated, ipNext, macNext := ReplaceLists(row, ips, macs, parseIp, parseMac, down, nextIp, nextMac);
      if error.Some? {
        KeepsConstraints(Table(stores, links), id, stores[id], nextId, nextIp, nextMac, ipNext, macNext);
        assert stores == stores[id := stores[id]];
        nextIp, nextMac := ipNext, macNext;
        return Failure(error.value);
      }
      KeepsConstraints(Table(stores, links), id, updated, nextId, nextIp, nextMac, ipNext, macNext);
      stores, nextIp, nextMac := stores[id := updated], ipNext, macNext;
      r := Success(updated);
    }

    /** DeleteWifiWhitelistEntries: best effort per entry; the version moves
        only when something was deleted. */
    method DeleteWifiWhitelistEntries(id: Id, token: int, ips: seq<string>, macs: seq<string>, now: int,
                                      down: set<Statement>)
      returns (r: Result<seq<RemovalResult>, Error>)
      requires Valid()
      modifies this`stores
      ensures Valid()
      ensures r.Failure? ==> stores == old(stores)
      ensures FindStore in down ==> r == Failure(DatabaseError)
      ensures FindStore !in down && !AtToken(old(stores), id, token) ==>
                r == Failure(if id in old(stores) then Conflict else NotFound)
      ensures FindStore !in down && AtToken(old(stores), id, token) ==>
                match RemovalError(old(stores)[id], ips, macs, parseIp, parseMac, down)
                case Some(e) => r == Failure(e)
                case None =>
                  && Parsed(ips, parseIp).Some? && Parsed(macs, parseMac).Some? && r.Success?
                  && var was, ipValues, macValues := old(stores)[id],
                                                     Parsed(ips, parseIp).value, Parsed(macs, parseMac).value;
                  && stores == old(stores)[id := Removed(was, ipValues, macValues, now)]
                  && |r.value| == |ips| + |macs|
                  && ResultsFor(r.value[..|ips|], ips, ipValues, "ip", Values(was.ips))
                  && ResultsFor(r.value[|ips|..], macs, macValues, "mac", Values(was.macs))
      ensures r == Failure(BadAddress) <==>
              && FindStore !in down && id in old(stores) && old(stores)[id].store.version == token
              && (Unparsable(ips, parseIp) || ((ips != [] ==> DeleteIps !in down) && Unparsable(macs, parseMac)))
      ensures r == Failure(NotFound) <==> FindStore !in down && id !in old(stores)
      ensures r == Failure(Conflict) <==>
              FindStore !in down && id in old(stores) && old(stores)[id].store.version != token
    {
      if FindStore in down {
        return Failure(DatabaseError);
      }
      if id !in stores {
        return Failure(NotFound);
      }
      if stores[id].store.version != token {
        return Failure(Conflict);
      }
      RemovalErrorIff(stores[id], ips, macs, parseIp, parseMac, down);
      var error, removed, results := RemoveEntries(stores[id], ips, macs, parseIp, parseMac, now, down, nextIp,
                                                   nextMac);
      if error.Some? {
        return Failure(error.value);
      }
      KeepsConstraints(Table(stores, links), id, removed, nextId, nextIp, nextMac, nextIp, nextMac);
      stores := stores[id := removed];
      r := Success(results);
    }

    /** SetStoreWifiWhitelistEnabled: compare-and-set on the row. */
    method SetWifiWhitelistEnabled(id: Id, token: int, enabled: bool, now: int, down: set<Statement>)
      returns (r: Result<ToggleResult, Error>)
      requires Valid()
      modifies this`stores
      ensures Valid()
      ensures r.Failure? ==> stores == old(stores)
      ensures CompareAndSet in down ==> r == Failure(DatabaseError)
      ensures r == Failure(NotFound) <==> CompareAndSet !in down && CheckExists !in down && id !in old(stores)
      ensures r == Failure(Conflict) <==>
              && CompareAndSet !in down && CheckExists !in down
              && id in old(stores) && old(stores)[id].store.version != token
      ensures CheckExists in down && !(id in old(stores) && old(stores)[id].store.version == token) ==>
                r == Failure(DatabaseError)
      ensures CompareAndSet !in down && AtToken(old(stores), id, token) ==>
                if CommitTx in down then r == Failure(DatabaseError)
                else && r == Success(ToggleResult(id, enabled, now))
                     && stores == old(stores)[id := Toggled(old(stores)[id], enabled, now)]
    {
      if CompareAndSet in down {
        return Failure(DatabaseError);
      }
      if !AtToken(stores, id, token) {
        return Failure(MissError(id, down));
      }
      if CommitTx in down {
        return Failure(DatabaseError);
      }
      stores := stores[id := Toggled(stores[id], enabled, now)];
      r := Success(ToggleResult(id, enabled, now));
    }

    /** BulkSetWifiWhitelistEnabled: all or nothing. `scan` and `returned` are the
        orders in which the database returns the rows it locked and the rows it
        updated, `order` the one in which the loop over the submitted map visits
        its ids. */
    method BulkSetWifiWhitelistEnabled(refs: seq<StoreRef>, enabled: bool, now: int, scan: seq<Id>, order: seq<Id>,
                                       returned: seq<Id>, down: set<Statement>)
      returns (r: Result<seq<ToggleResult>, Error>)
      requires Valid()
      requires NoRepeats(scan) && forall id :: id in scan <==> id in Submitted(refs) && id in stores
      requires NoRepeats(returned) && forall id :: id in Submitted(refs) && id in stores ==> id in returned
      requires forall i :: 0 <= i < |returned| ==> returned[i] in Submitted(refs) && returned[i] in stores
      requires NoRepeats(order) && forall id :: id in order <==> id in Submitted(refs)
      modifies this`stores
      ensures Valid()
      ensures r.Failure? ==> stores == old(stores)
      ensures LockRows in down ==> r == Failure(DatabaseError)
      ensures LockRows !in down ==>
                (r.Failure? && r.error.BulkConflict? <==>
                 exists id :: id in Submitted(refs) &&
                              (id !in old(stores) || old(stores)[id].store.version != Submitted(refs)[id]))
      ensures r.Failure? && r.error.BulkConflict? ==>
                && NoRepeats(r.error.failed)
                && forall id :: id in r.error.failed <==>
                                && id in Submitted(refs)
                                && (id !in old(stores) || old(stores)[id].store.version != Submitted(refs)[id])
      ensures r.Failure? && !r.error.BulkConflict? ==>
                r.error == DatabaseError && (LockRows in down || SetFlags in down || CommitTx in down)
      ensures r.Success? ==>
                && SetFlags !in down && CommitTx !in down
                && stores.Keys == old(stores).Keys
                && (forall id :: id in stores ==>
                                   stores[id] == if id !in Submitted(refs) then old(stores)[id]
                                   else Toggled(old(stores)[id], enabled, now))
                && |r.value| == |returned|
                && forall i :: 0 <= i < |returned| ==> r.value[i] == ToggleResult(returned[i], enabled, now)
    {
      var submitted: map<Id, int> := map[];
      for i := 0 to |refs|
        invariant submitted == SubmittedUpTo(refs, i)
      {
        submitted := submitted[refs[i].id := refs[i].token];
      }
      if LockRows in down {
        return Failure(DatabaseError);
      }
      var failed := FailedIds(stores, submitted, scan, order);
      if |failed| > 0 {
        assert Fails(stores, submitted, failed[0]);
        return Failure(BulkConflict(failed));
      }
      forall id | id in submitted ensures id in stores && stores[id].store.version == submitted[id] {
        assert !Fails(stores, submitted, id);
      }
      if SetFlags in down || CommitTx in down {
        return Failure(DatabaseError);
      }
      FlaggedKeepsConstraints(Table(stores, links), submitted, enabled, now, nextId, nextIp, nextMac);
      stores := Flagged(stores, submitted, enabled, now);
      forall i | 0 <= i < |returned| ensures returned[i] in submitted && returned[i] in old(stores) {}
      forall i | 0 <= i < |returned|
        ensures returned[i] in stores && stores[returned[i]] == Toggled(old(stores)[returned[i]], enabled, now)
      {}
      var results := ReportFlags(stores, returned, enabled, now);
      r := Success(results);
    }

    /** runSync: one fetch, then upsert and delete in one transaction. An answer
        that names a store twice makes the upsert fail. */
    method RunSync(answer: Option<seq<OdooStore>>, now: int, down: set<Statement>) returns (outcome: SyncOutcome)
      requires Valid()
      modifies this
      ensures Valid() && nextId >= old(nextId) && nextIp == old(nextIp) && nextMac == old(nextMac)
      ensures outcome.FetchFailed? <==> answer.None?
      ensures outcome.RolledBack? <==> answer.Some? && SyncFails(Table(old(stores), old(links)), answer.value, down)
      ensures !outcome.Completed? ==> stores == old(stores) && links == old(links)
      ensures outcome.Completed? ==>
                && Synced(Table(old(stores), old(links)), Table(stores, links), Names(answer.value), now, old(nextId))
                && CountersOk(old(stores), stores, answer.value, outcome.inserted, outcome.updated, outcome.deleted)
    {
      if answer.None? {
        return FetchFailed;
      }
      var ok, table, inserted, updated, deleted := SyncTables(Table(stores, links), answer.value, now, nextId, nextIp,
                                                              nextMac, down);
      nextId := nextId + |answer.value|;
      if !ok {
        KeepsConstraintsWithMoreIds(Table(stores, links), old(nextId), nextId, nextIp, nextMac);
        return RolledBack;
      }
      stores, links := table.stores, table.links;
      outcome := Completed(inserted, updated, deleted);
    }
  }

  predicate AtToken(stores: map<Id, Aggregate>, id: Id, token: int) {
    id in stores && stores[id].store.version == token
  }

  /** BulkSetStoreWifiWhitelistEnabled's UPDATE. */
  function Flagged(stores: map<Id, Aggregate>, submitted: map<Id, int>, enabled: bool, now: int): map<Id, Aggregate> {
    map id | id in stores :: if id in submitted then Toggled(stores[id], enabled, now) else stores[id]
  }

  lemma FlaggedKeepsConstraints(t: Table, submitted: map<Id, int>, enabled: bool, now: int, nextId: Id, nextIp: nat,
                                nextMac: nat)
    requires Constraints(t, nextId, nextIp, nextMac)
    ensures Constraints(t.(stores := Flagged(t.stores, submitted, enabled, now)), nextId, nextIp, nextMac)
  {
    var flagged := Flagged(t.stores, submitted, enabled, now);
    forall id | id in t.stores ensures id in flagged && flagged[id].store.odooId == t.stores[id].store.odooId {}
  }

  /** The loop over the rows the UPDATE returned. */
  method ReportFlags(stores: map<Id, Aggregate>, returned: seq<Id>, enabled: bool, now: int)
    returns (results: seq<ToggleResult>)
    requires forall i :: 0 <= i < |returned| ==> returned[i] in stores && stores[returned[i]].store.enabled == enabled
                                                 && stores[returned[i]].store.version == now
    ensures |results| == |returned|
    ensures forall i :: 0 <= i < |returned| ==> results[i] == ToggleResult(returned[i], enabled, now)
  {
    results := [];
    for i := 0 to |returned|
      invariant |results| == i && forall k :: 0 <= k < i ==> results[k] == ToggleResult(returned[k], enabled, now)
    {
      var row := stores[returned[i]].store;
      results := results + [ToggleResult(returned[i], row.enabled, row.version)];
    }
  }

  // ---- the sync's transaction ----

  /** The counters count the rows the transaction added, dropped and otherwise proposed. */
  ghost predicate CountersOk(was: map<Id, Aggregate>, now: map<Id, Aggregate>, odoo: seq<OdooStore>, inserted: nat,
                             updated: nat,
                             deleted: nat) {
    inserted == |now.Keys - was.Keys| && deleted == |was.Keys - now.Keys| && inserted + updated == |odoo|
  }

  predicate AnyStale(t: Table, names: map<OdooKey, string>) {
    exists id :: id in t.stores && Stale(t.stores[id], names)
  }

  /** The upsert cannot touch one row twice, and each statement that is reached
      may fail; the DELETE is reached when some store is stale. */
  predicate SyncFails(t: Table, odoo: seq<OdooStore>, down: set<Statement>) {
    || Upsert in down || !NoRepeats(OdooIds(odoo)) || FindStale in down || CommitTx in down
    || (DropStale in down && AnyStale(t, Names(odoo)))
  }

  /** A sync is rolled back exactly if its answer names a store twice, a statement
      that every sync reaches fails, or the DELETE fails and some linked store is
      missing from the answer. */
  lemma SyncFailsIff(t: Table, odoo: seq<OdooStore>, down: set<Statement>)
    ensures SyncFails(t, odoo, down) <==>
            || (exists i: nat, j: nat :: i < j < |odoo| && odoo[i].id == odoo[j].id)
            || Upsert in down || FindStale in down || CommitTx in down
            || (DropStale in down &&
                exists id :: && id in t.stores && t.stores[id].store.odooId.Some?
                             && forall i: nat :: i < |odoo| ==> odoo[i].id != t.stores[id].store.odooId.value)
  {
    forall id | id in t.stores && t.stores[id].store.odooId.Some?
      ensures Stale(t.stores[id], Names(odoo)) <==>
              forall i: nat :: i < |odoo| ==> odoo[i].id != t.stores[id].store.odooId.value
    {
      NamesAreIds(odoo);
      var key := t.stores[id].store.odooId.value;
      assert key in Names(odoo) <==> key in IdsUpTo(odoo, |odoo|);
    }
    forall i: nat, j: nat | i < j < |odoo| ensures odoo[i].id == odoo[j].id <==> OdooIds(odoo)[i] == OdooIds(odoo)[j] {}
  }

  method SyncTables(t: Table, odoo: seq<OdooStore>, now: int, nextId: Id, ghost nextIp: nat, ghost nextMac: nat,
                    down: set<Statement>)
    returns (ok: bool, t': Table, inserted: nat, updated: nat, deleted: nat)
    requires Constraints(t, nextId, nextIp, nextMac)
    ensures ok <==> !SyncFails(t, odoo, down)
    ensures ok ==>
              && Synced(t, t', Names(odoo), now, nextId) && Constraints(t', nextId + |odoo|, nextIp, nextMac)
              && CountersOk(t.stores, t'.stores, odoo, inserted, updated, deleted)
  {
    ok, t', inserted, updated, deleted := false, t, 0, 0, 0;
    if Upsert in down {
      return;
    }
    var unique, upserted, ids := UpsertStores(t, odoo, now, nextId);
    if !unique {
      return;
    }
    inserted, updated := CountReturned(odoo, t.links);
    if FindStale in down {
      return;
    }
    var gone := StoresNotInOdoo(upserted, ids);
    SyncMeans(t, upserted, Names(odoo), now, nextId, nextId + |odoo|, nextIp, nextMac);
    UnknownCounted(odoo, t.links.Keys, |odoo|);
    UnknownIds(odoo, t.links.Keys, |odoo|);
    NamesAreIds(odoo);
    if gone != {} {
      if DropStale in down {
        return;
      }
      deleted := |gone|;
    }
    if CommitTx in down {
      return;
    }
    ok, t' := true, DeleteStores(upserted, gone);
  }

  lemma GoneAreStale(t: Table, t': Table, names: map<OdooKey, string>, now: int, next: Id, gone: set<Id>)
    requires Synced(t, t', names, now, next) && t.stores.Keys - t'.stores.Keys == gone
    ensures gone != {} <==> AnyStale(t, names)
  {
    forall id | id in t.stores ensures id in gone <==> Stale(t.stores[id], names) {}
    if gone != {} {
      var id := SomeMember(gone);
      assert id in t.stores && Stale(t.stores[id], names);
    }
  }

  lemma SomeMember<T>(s: set<T>) returns (x: T)
    requires s != {}
    ensures x in s
  {
    x :| x in s;
  }

  lemma KeepsConstraintsWithMoreIds(t: Table, nextId: Id, nextId': Id, nextIp: nat, nextMac: nat)
    requires Constraints(t, nextId, nextIp, nextMac) && nextId <= nextId'
    ensures Constraints(t, nextId', nextIp, nextMac)
  {}

  /** The upsert, row by row; it fails when it would touch one row twice. */
  method UpsertStores(t: Table, odoo: seq<OdooStore>, now: int, nextId: Id)
    returns (ok: bool, t': Table, ids: set<OdooKey>)
    requires Indexed(t) && BelowId(t, nextId)
    ensures ok <==> NoRepeats(OdooIds(odoo))
    ensures ok ==> ids == Names(odoo).Keys
    ensures ok ==> Upserted(t, t', Names(odoo), now, nextId) && BelowId(t', nextId + |odoo|)
  {
    t', ids := t, {};
    for i := 0 to |odoo|
      invariant ids == NamesUpTo(odoo, i).Keys && NoRepeatsUpTo(OdooIds(odoo), i)
      invariant Upserted(t, t', NamesUpTo(odoo, i), now, nextId) && BelowId(t', nextId + i)
    {
      NewName(odoo, i);
      if odoo[i].id in ids {
        ok := false;
        return;
      }
      t' := UpsertOne(t, t', odoo[i], now, NamesUpTo(odoo, i), nextId, nextId + i);
      ids := ids + {odoo[i].id};
    }
    ok := true;
  }

  method UpsertOne(ghost t: Table, mid: Table, st: OdooStore, now: int, ghost names: map<OdooKey, string>,
                   ghost next: Id, id: Id)
    returns (t': Table)
    requires Indexed(t) && Upserted(t, mid, names, now, next) && st.id !in names && BelowId(mid, id) && id >= next
    ensures Upserted(t, t', names[st.id := st.name], now, next) && BelowId(t', id + 1)
  {
    UpsertRowStep(t, mid, names, now, next, st, id);
    t' := UpsertRow(mid, st, now, id);
  }

  /** The loop over the rows the upsert returned. */
  method CountReturned(odoo: seq<OdooStore>, links: map<OdooKey, Id>) returns (inserted: nat, updated: nat)
    ensures inserted == UnknownCount(odoo, links.Keys, |odoo|) && inserted + updated == |odoo|
  {
    inserted, updated := 0, 0;
    for i := 0 to |odoo|
      invariant inserted == UnknownCount(odoo, links.Keys, i) && inserted + updated == i
    {
      if odoo[i].id !in links {
        inserted := inserted + 1;
      } else {
        updated := updated + 1;
      }
    }
  }

  /** How many of the first n entries have no row yet. */
  function UnknownCount(odoo: seq<OdooStore>, known: set<OdooKey>, n: nat): nat
    requires n <= |odoo|
  {
    if n == 0 then 0 else UnknownCount(odoo, known, n - 1) + if odoo[n - 1].id in known then 0 else 1
  }

  ghost function IdsUpTo(odoo: seq<OdooStore>, n: nat): set<OdooKey>
    requires n <= |odoo|
  {
    set i | 0 <= i < n :: odoo[i].id
  }

  ghost function Unknown(odoo: seq<OdooStore>, known: set<OdooKey>, n: nat): set<OdooKey>
    requires n <= |odoo|
  {
    if n == 0 then {} else Unknown(odoo, known, n - 1) + if odoo[n - 1].id in known then {} else {odoo[n - 1].id}
  }

  lemma {:induction false} UnknownIds(odoo: seq<OdooStore>, known: set<OdooKey>, n: nat)
    requires n <= |odoo|
    ensures Unknown(odoo, known, n) == IdsUpTo(odoo, n) - known
  {
    if n > 0 {
      UnknownIds(odoo, known, n - 1);
      assert IdsUpTo(odoo, n) == IdsUpTo(odoo, n - 1) + {odoo[n - 1].id};
    }
  }

  lemma {:induction false} UnknownCounted(odoo: seq<OdooStore>, known: set<OdooKey>, n: nat)
    requires n <= |odoo| && NoRepeats(OdooIds(odoo))
    ensures UnknownCount(odoo, known, n) == |Unknown(odoo, known, n)|
  {
    if n > 0 {
      UnknownCounted(odoo, known, n - 1);
      var before, id := Unknown(odoo, known, n - 1), odoo[n - 1].id;
      if id in known {
        assert Unknown(odoo, known, n) == before;
      } else {
        NewId(odoo, known, n);
        OneMore(before, id);
      }
    }
  }

  lemma OneMore<T>(a: set<T>, x: T)
    requires x !in a
    ensures |a + {x}| == |a| + 1
  {}

  lemma NewId(odoo: seq<OdooStore>, known: set<OdooKey>, n: nat)
    requires 0 < n <= |odoo| && NoRepeats(OdooIds(odoo))
    ensures odoo[n - 1].id !in Unknown(odoo, known, n - 1)
  {
    UnknownIds(odoo, known, n - 1);
    assert forall i: nat :: i < n - 1 ==> OdooIds(odoo)[i] != OdooIds(odoo)[n - 1];
  }

  lemma NamesAreIds(odoo: seq<OdooStore>)
    ensures Names(odoo).Keys == IdsUpTo(odoo, |odoo|)
  {
    forall i: nat | i < |odoo| ensures odoo[i].id in Names(odoo) {
      NameKept(odoo, i, |odoo|);
    }
    forall id | id in Names(odoo) ensures id in IdsUpTo(odoo, |odoo|) {
      NameSource(odoo, |odoo|, id);
    }
  }

  lemma SyncMeans(t: Table, mid: Table, names: map<OdooKey, string>, now: int, next: Id, nextId: Id, nextIp: nat,
                  nextMac: nat)
    requires Constraints(t, next, nextIp, nextMac) && Upserted(t, mid, names, now, next) && BelowId(mid, nextId)
    ensures var gone := StoresNotInOdoo(mid, names.Keys);
            var t' := DeleteStores(mid, gone);
            && Synced(t, t', names, now, next)
            && Constraints(t', nextId, nextIp, nextMac)
            && |t'.stores.Keys - t.stores.Keys| == |names.Keys - t.links.Keys|
            && t.stores.Keys - t'.stores.Keys == gone && (gone != {} <==> AnyStale(t, names))
  {
    InsertedCount(t, mid, names, now, next);
    DeleteStaleStep(t, mid, names, now, next);
    DeleteStaleKeys(t, mid, names, now, next);
    UpsertKeepsLists(t, mid, names, now, next, nextIp, nextMac);
    var gone := StoresNotInOdoo(mid, names.Keys);
    GoneAreStale(t, DeleteStores(mid, gone), names, now, next, gone);
  }

  lemma UpsertKeepsLists(t: Table, mid: Table, names: map<OdooKey, string>, now: int, next: Id, nextIp: nat,
                         nextMac: nat)
    requires Constraints(t, next, nextIp, nextMac) && Upserted(t, mid, names, now, next)
    ensures forall id :: id in mid.stores ==>
                           Ordered(mid.stores[id].ips, nextIp) && Ordered(mid.stores[id].macs, nextMac)
  {}

  lemma NothingRemoved<V>(list: seq<Entry<V>>, values: seq<V>)
    requires values == []
    ensures RowsIn(list, values) == {} && Without(list, RowsIn(list, values)) == list
  {
    assert RowsIn(list, values) == {};
    WithoutNothing(list);
  }
}
