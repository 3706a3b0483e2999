/** Positions and the employees that hold them: the two writers of
    employee_positions, each a transaction, and the listings that attach every
    employee's position and store ids. */
module Positions {
  import opened Results
  import opened Lists
  import opened PairTable

  datatype Error =
    | PositionNotFound | EmployeeNotFound | UnknownEmployeeId | UnknownPositionId | InvalidOdooId
    | EmailTaken | UsernameTaken | OdooIdTaken | DatabaseError

  /** The statements that may fail. */
  datatype Statement = Lookup | Count | UpdateRow | DeletePairs | InsertPairs | SetPassword | List | CommitTx

  /** `email` as CITEXT compares it, without regard to case. */
  datatype Profile = Profile(odooId: nat, fullName: string, email: string, username: string)

  datatype Employee = Employee(profile: Profile, password: Option<nat>)

  datatype Detail = Detail(employee: nat, positions: seq<nat>, stores: seq<nat>)

  // ---- counting as validation ----

  function IdSet(ids: seq<nat>): set<nat> {
    set i | 0 <= i < |ids| :: ids[i]
  }

  /** SELECT count(*) ... WHERE id = ANY(ids). */
  function CountByIds(existing: set<nat>, ids: seq<nat>): nat {
    |existing * IdSet(ids)|
  }

  lemma {:induction false} DistinctIdsCounted(ids: seq<nat>)
    ensures |IdSet(ids)| <= |ids| && (|IdSet(ids)| == |ids| <==> NoRepeats(ids))
  {
    if ids != [] {
      var n := |ids| - 1;
      var front := ids[..n];
      DistinctIdsCounted(front);
      assert IdSet(ids) == IdSet(front) + {ids[n]};
      if ids[n] in IdSet(front) {
        var i: nat :| i < n && front[i] == ids[n];
        assert IdSet(ids) == IdSet(front);
        assert !NoRepeats(ids) by {
          assert ids[i] == ids[n];
        }
      } else {
        assert |IdSet(ids)| == |IdSet(front)| + 1;
        assert forall i: nat :: i < n ==> ids[i] == front[i] && ids[i] in IdSet(front);
      }
    }
  }

  lemma SubsetCount(a: set<nat>, b: set<nat>)
    requires a <= b
    ensures |a| <= |b| && (|a| == |b| ==> a == b)
  {
    assert b == a + (b - a);
    assert |b| == |a| + |b - a|;
  }

  /** One count decides whether the ids all exist; it also turns down a repeated id. */
  lemma CountDecides(existing: set<nat>, ids: seq<nat>)
    ensures CountByIds(existing, ids) == |ids| <==> NoRepeats(ids) && forall i: nat :: i < |ids| ==> ids[i] in existing
  {
    var common := existing * IdSet(ids);
    DistinctIdsCounted(ids);
    SubsetCount(common, IdSet(ids));
    if common == IdSet(ids) {
      forall i: nat | i < |ids| ensures ids[i] in existing {
        assert ids[i] in IdSet(ids);
      }
    }
    if forall i: nat :: i < |ids| ==> ids[i] in existing {
      assert common == IdSet(ids);
    }
  }

  // ---- grouping ----

  /** The zero value of a missing key is the empty list. */
  function GroupOf(groups: map<nat, seq<nat>>, e: nat): seq<nat> {
    if e in groups then groups[e] else []
  }

  function Grouped(groups: map<nat, seq<nat>>, p: Pair): map<nat, seq<nat>> {
    groups[p.employee := GroupOf(groups, p.employee) + [p.other]]
  }

  /** Every employee's group is their slice of the first n rows. */
  ghost predicate GroupedUpTo(groups: map<nat, seq<nat>>, rows: seq<Pair>, n: nat)
    requires n <= |rows|
  {
    forall e: nat :: GroupOf(groups, e) == Slice(rows, e, n)
  }

  lemma GroupNext(rows: seq<Pair>, groups: map<nat, seq<nat>>, i: nat)
    requires i < |rows| && GroupedUpTo(groups, rows, i)
    ensures GroupedUpTo(Grouped(groups, rows[i]), rows, i + 1)
  {
    forall e: nat ensures GroupOf(Grouped(groups, rows[i]), e) == Slice(rows, e, i + 1) {
      assert GroupOf(groups, e) == Slice(rows, e, i);
      if e != rows[i].employee {
        assert Slice(rows, e, i + 1) == Slice(rows, e, i) + [];
      }
    }
  }

  /** Rows grouped by employee, as the loops over the bulk listings do. */
  method GroupByEmployee(rows: seq<Pair>) returns (groups: map<nat, seq<nat>>)
    ensures GroupedUpTo(groups, rows, |rows|)
  {
    groups := map[];
    for i := 0 to |rows|
      invariant GroupedUpTo(groups, rows, i)
    {
      GroupNext(rows, groups, i);
      groups := Grouped(groups, rows[i]);
    }
  }

  /** What the queries for one employee would give. */
  function DetailOf(e: nat, positions: Table, stores: Table): Detail {
    Detail(e, Sorted(OthersOf(positions, e)), Sorted(OthersOf(stores, e)))
  }

  lemma DetailColumns(e: nat, positions: Table, stores: Table)
    ensures var d := DetailOf(e, positions, stores);
            && d.employee == e && Increasing(d.positions) && Increasing(d.stores)
            && (forall o: nat :: o in d.positions <==> Pair(e, o) in positions)
            && forall o: nat :: o in d.stores <==> Pair(e, o) in stores
  {
    forall o: nat ensures o in OthersOf(positions, e) <==> Pair(e, o) in positions {}
    forall o: nat ensures o in OthersOf(stores, e) <==> Pair(e, o) in stores {}
  }

  /** One bulk listing, grouped: for each listed employee, what the query for
      that employee alone returns, and the empty list where it returns nothing. */
  method GroupedListing(table: Table, es: seq<nat>) returns (groups: map<nat, seq<nat>>)
    ensures forall e: nat :: e in es ==> GroupOf(groups, e) == Sorted(OthersOf(table, e))
  {
    var rows := Listing(table, es);
    groups := GroupByEmployee(rows);
    ListingIsListing(table, es);
    forall e: nat | e in es ensures Slice(rows, e, |rows|) == Sorted(OthersOf(table, e)) {
      SliceIsOwnListing(rows, table, es, e);
    }
  }

  /** buildEmployeeDetails, and ListEmployees after its own query. */
  method BuildDetails(es: seq<nat>, positions: Table, stores: Table) returns (details: seq<Detail>)
    ensures |details| == |es| && forall i: nat :: i < |es| ==> details[i] == DetailOf(es[i], positions, stores)
    ensures forall i: nat :: i < |details| ==>
                               && details[i].employee == es[i]
                               && Increasing(details[i].positions) && Increasing(details[i].stores)
    ensures forall i: nat, o: nat :: i < |details| ==> (o in details[i].positions <==> Pair(es[i], o) in positions)
    ensures forall i: nat, o: nat :: i < |details| ==> (o in details[i].stores <==> Pair(es[i], o) in stores)
  {
    var positionIds := GroupedListing(positions, es);
    var storeIds := GroupedListing(stores, es);
    details := [];
    for i := 0 to |es|
      invariant |details| == i && forall k: nat :: k < i ==> details[k] == DetailOf(es[k], positions, stores)
    {
      var e := es[i];
      details := details + [Detail(e, GroupOf(positionIds, e), GroupOf(storeIds, e))];
    }
    forall i: nat | i < |es|
      ensures Increasing(details[i].positions) && Increasing(details[i].stores)
      ensures forall o: nat :: o in details[i].positions <==> Pair(es[i], o) in positions
      ensures forall o: nat :: o in details[i].stores <==> Pair(es[i], o) in stores
    {
      DetailColumns(es[i], positions, stores);
    }
  }

  // ---- the unique columns of employees ----

  predicate Apart(p: Profile, q: Profile) {
    p.odooId != q.odooId && p.email != q.email && p.username != q.username
  }

  /** Which of the columns collides; where more than one does, the database may
      report any. */
  method FindCollision(employees: map<nat, Employee>, id: nat, profile: Profile) returns (r: Option<Error>)
    ensures r.None? <==> forall e :: e in employees && e != id ==> Apart(employees[e].profile, profile)
    ensures r == Some(EmailTaken) ==>
              exists e :: e in employees && e != id && employees[e].profile.email == profile.email
    ensures r == Some(UsernameTaken) ==>
              exists e :: e in employees && e != id && employees[e].profile.username == profile.username
    ensures r == Some(OdooIdTaken) ==>
              exists e :: e in employees && e != id && employees[e].profile.odooId == profile.odooId
    ensures r in {None, Some(EmailTaken), Some(UsernameTaken), Some(OdooIdTaken)}
  {
    if exists e :: e in employees && e != id && employees[e].profile.email == profile.email {
      return Some(EmailTaken);
    }
    if exists e :: e in employees && e != id && employees[e].profile.username == profile.username {
      return Some(UsernameTaken);
    }
    if exists e :: e in employees && e != id && employees[e].profile.odooId == profile.odooId {
      return Some(OdooIdTaken);
    }
    return None;
  }

  // ---- the services ----

  class Tables {
    var employees: map<nat, Employee>
    var positions: set<nat>
    var employeePositions: Table
    var employeeStores: Table

    /** The foreign keys of employee_positions and the unique columns of employees. */
    ghost predicate Valid()
      reads this
    {
      && (forall p :: p in employeePositions ==> p.employee in employees && p.other in positions)
      && forall e, e' :: e in employees && e' in employees && e != e' ==>
                           Apart(employees[e].profile, employees[e'].profile)
    }

    /** validateEmployeeIDs, which asks the database only about a nonempty list. */
    method ValidateEmployeeIds(ids: seq<nat>, down: set<Statement>) returns (r: Option<Error>)
      ensures r == None <==>
              (ids != [] ==> Count !in down) && NoRepeats(ids) && forall i: nat :: i < |ids| ==> ids[i] in employees
      ensures r.Some? ==> r.value == if Count in down then DatabaseError else UnknownEmployeeId
    {
      CountDecides(employees.Keys, ids);
      if |ids| == 0 {
        return None;
      }
      if Count in down {
        return Some(DatabaseError);
      }
      var count := CountByIds(employees.Keys, ids);
      r := if count != |ids| then Some(UnknownEmployeeId) else None;
    }

    /** validatePositionIDs. */
    method ValidatePositionIds(ids: seq<nat>, down: set<Statement>) returns (r: Option<Error>)
      ensures r == None <==>
              (ids != [] ==> Count !in down) && NoRepeats(ids) && forall i: nat :: i < |ids| ==> ids[i] in positions
      ensures r.Some? ==> r.value == if Count in down then DatabaseError else UnknownPositionId
    {
      CountDecides(positions, ids);
      if |ids| == 0 {
        return None;
      }
      if Count in down {
        return Some(DatabaseError);
      }
      var count := CountByIds(positions, ids);
      r := if count != |ids| then Some(UnknownPositionId) else None;
    }

    /** The position-first replace. It goes through exactly when the position and
        all the employees exist, no id is repeated and no statement fails; then
        the position has exactly these employees, listed in id order, and every
        other pair is as before. Otherwise nothing changes. */
    method SetPositionEmployees(id: nat, ids: seq<nat>, down: set<Statement>) returns (r: Result<seq<Detail>, Error>)
      requires Valid()
      modifies this`employeePositions
      ensures Valid()
      ensures r.Success? <==>
              && id in positions && NoRepeats(ids) && (forall i: nat :: i < |ids| ==> ids[i] in employees)
              && Lookup !in down && (ids != [] ==> Count !in down) && DeletePairs !in down
              && InsertPairs !in down && List !in down
              && CommitTx !in down
      ensures r.Success? ==>
                forall p :: p in employeePositions <==>
                            if p.other == id then p.employee in ids else p in old(employeePositions)
      ensures r.Success? ==>
                && (forall i: nat, j: nat :: i < j < |r.value| ==> r.value[i].employee < r.value[j].employee)
                && (forall e: nat :: e in ids <==> Shows(r.value, e))
      ensures r.Success? ==>
                forall i: nat :: i < |r.value| ==>
                                   && Increasing(r.value[i].positions) && Increasing(r.value[i].stores)
                                   && (forall o: nat :: o in r.value[i].positions <==>
                                                        Pair(r.value[i].employee, o) in employeePositions)
                                   && forall o: nat :: o in r.value[i].stores <==>
                                                       Pair(r.value[i].employee, o) in employeeStores
      ensures r.Failure? ==> employeePositions == old(employeePositions)
      ensures r.Failure? && r.error == PositionNotFound <==> Lookup !in down && id !in positions
      ensures r.Failure? && r.error == UnknownEmployeeId <==>
              && Lookup !in down && id in positions && Count !in down
              && (!NoRepeats(ids) || exists i: nat :: i < |ids| && ids[i] !in employees)
      ensures r.Failure? ==> r.error in {PositionNotFound, UnknownEmployeeId, DatabaseError}
    {
      if Lookup in down {
        return Failure(DatabaseError);
      }
      if id !in positions {
        return Failure(PositionNotFound);
      }
      var invalid := ValidateEmployeeIds(ids, down);
      if invalid.Some? {
        return Failure(invalid.value);
      }
      if DeletePairs in down {
        return Failure(DatabaseError);
      }
      var table := DeleteEmployeesNotIn(employeePositions, id, ids);
      if InsertPairs in down {
        return Failure(DatabaseError);
      }
      table := InsertEmployees(table, id, ids);
      forall p: Pair ensures p in table <==> if p.other == id then p.employee in ids else p in employeePositions {
        EmployeesReplaced(employeePositions, id, ids, p);
      }
      if List in down {
        return Failure(DatabaseError);
      }
      var listed := Sorted(EmployeesOf(table, id));
      HoldersAreIds(table, id, ids);
      var details := BuildDetails(listed, table, employeeStores);
      forall e: nat ensures e in ids <==> Shows(details, e) {
        ShowsHolders(details, listed, ids, e);
      }
      if CommitTx in down {
        return Failure(DatabaseError);
      }
      employeePositions := table;
      return Success(details);
    }

    /** The employee-first replace, with the employee's own row: exactly the
        submitted positions for this employee, every other pair and employee as
        before; or, on any failure, no change at all. */
    method UpdateEmployee(id: nat, profile: Profile, ids: seq<nat>, password: Option<nat>, odooConfirms: bool,
                          down: set<Statement>)
      returns (r: Result<Detail, Error>)
      requires Valid()
      modifies this`employees, this`employeePositions
      ensures Valid()
      ensures r.Success? <==>
              && Lookup !in down && id in old(employees)
              && (profile.odooId == old(employees)[id].profile.odooId || odooConfirms)
              && (ids != [] ==> Count !in down) && NoRepeats(ids)
              && (forall i: nat :: i < |ids| ==> ids[i] in positions)
              && UpdateRow !in down
              && (forall e :: e in old(employees) && e != id ==>
                                && old(employees)[e].profile.odooId != profile.odooId
                                && old(employees)[e].profile.email != profile.email
                                && old(employees)[e].profile.username != profile.username)
              && DeletePairs !in down && InsertPairs !in down && (password.Some? ==> SetPassword !in down)
              && List !in down && CommitTx !in down
      ensures r.Failure? && r.error == EmployeeNotFound <==> Lookup !in down && id !in old(employees)
      ensures r.Failure? && r.error == InvalidOdooId <==>
              && Lookup !in down && id in old(employees)
              && profile.odooId != old(employees)[id].profile.odooId && !odooConfirms
      ensures r.Failure? && r.error == UnknownPositionId <==>
              && Lookup !in down && id in old(employees)
              && (profile.odooId == old(employees)[id].profile.odooId || odooConfirms)
              && Count !in down && (!NoRepeats(ids) || exists i: nat :: i < |ids| && ids[i] !in positions)
      ensures r.Failure? && r.error in {EmailTaken, UsernameTaken, OdooIdTaken} <==>
              && Lookup !in down && id in old(employees)
              && (profile.odooId == old(employees)[id].profile.odooId || odooConfirms)
              && (ids != [] ==> Count !in down) && NoRepeats(ids)
              && (forall i: nat :: i < |ids| ==> ids[i] in positions)
              && UpdateRow !in down
              && exists e :: && e in old(employees) && e != id
                             && (|| old(employees)[e].profile.odooId == profile.odooId
                                 || old(employees)[e].profile.email == profile.email
                                 || old(employees)[e].profile.username == profile.username)
      ensures r.Failure? && r.error == EmailTaken ==>
                exists e :: e in old(employees) && e != id && old(employees)[e].profile.email == profile.email
      ensures r.Failure? && r.error == UsernameTaken ==>
                exists e :: e in old(employees) && e != id && old(employees)[e].profile.username == profile.username
      ensures r.Failure? && r.error == OdooIdTaken ==>
                exists e :: e in old(employees) && e != id && old(employees)[e].profile.odooId == profile.odooId
      ensures r.Failure? ==>
                r.error in {EmployeeNotFound, InvalidOdooId, UnknownPositionId, EmailTaken, UsernameTaken, OdooIdTaken,
                            DatabaseError}
      ensures r.Success? ==>
                && id in old(employees)
                && forall p :: p in employeePositions <==>
                               if p.employee == id then p.other in ids else p in old(employeePositions)
      ensures r.Success? ==>
                var kept := old(employees)[id].password;
                employees == old(employees)[id := Employee(profile, if password.Some? then password else kept)]
      ensures r.Success? ==>
                && r.value.employee == id && r.value.positions == ids && Increasing(r.value.stores)
                && forall o: nat :: o in r.value.stores <==> Pair(id, o) in employeeStores
      ensures r.Failure? ==> employees == old(employees) && employeePositions == old(employeePositions)
    {
      if Lookup in down {
        return Failure(DatabaseError);
      }
      if id !in employees {
        return Failure(EmployeeNotFound);
      }
      var current := employees[id];
      if profile.odooId != current.profile.odooId && !odooConfirms {
        return Failure(InvalidOdooId);
      }
      var invalid := ValidatePositionIds(ids, down);
      if invalid.Some? {
        return Failure(invalid.value);
      }
      if UpdateRow in down {
        return Failure(DatabaseError);
      }
      var collision := FindCollision(employees, id, profile);
      if collision.Some? {
        return Failure(collision.value);
      }
      if DeletePairs in down {
        return Failure(DatabaseError);
      }
      var table := DeleteOthersNotIn(employeePositions, id, ids);
      if InsertPairs in down {
        return Failure(DatabaseError);
      }
      table := InsertOthers(table, id, ids);
      forall p: Pair ensures p in table <==> if p.employee == id then p.other in ids else p in employeePositions {
        OthersReplaced(employeePositions, id, ids, p);
      }
      var employee := current.(profile := profile);
      if password.Some? {
        if SetPassword in down {
          return Failure(DatabaseError);
        }
        employee := employee.(password := password);
      }
      if List in down || CommitTx in down {
        return Failure(DatabaseError);
      }
      employees := employees[id := employee];
      employeePositions := table;
      return Success(Detail(id, ids, Sorted(OthersOf(employeeStores, id))));
    }

    /** All or nothing: every id exists and none is repeated, or nothing is
        deleted. Assignments of a deleted position go with it. */
    method BulkDeletePositions(ids: seq<nat>, down: set<Statement>) returns (r: Option<Error>)
      requires Valid()
      modifies this`positions, this`employeePositions
      ensures Valid()
      ensures r == Some(PositionNotFound) <==>
              Count !in down && (!NoRepeats(ids) || exists i: nat :: i < |ids| && ids[i] !in old(positions))
      ensures r in {None, Some(PositionNotFound), Some(DatabaseError)}
      ensures r == None <==>
              && Count !in down && DeletePairs !in down && CommitTx !in down && NoRepeats(ids)
              && forall i: nat :: i < |ids| ==> ids[i] in old(positions)
      ensures r == None ==> positions == old(positions) - IdSet(ids)
                            && forall p :: p in employeePositions <==> p in old(employeePositions) && p.other !in ids
      ensures r.Some? ==> positions == old(positions) && employeePositions == old(employeePositions)
    {
      if Count in down {
        return Some(DatabaseError);
      }
      CountDecides(positions, ids);
      var count := CountByIds(positions, ids);
      if count != |ids| {
        return Some(PositionNotFound);
      }
      if DeletePairs in down || CommitTx in down {
        return Some(DatabaseError);
      }
      positions := positions - IdSet(ids);
      employeePositions := set p | p in employeePositions && p.other !in ids;
      return None;
    }
  }

  /** Some entry is about e. */
  predicate Shows(details: seq<Detail>, e: nat) {
    exists i: nat :: i < |details| && details[i].employee == e
  }

  lemma ShowsHolders(details: seq<Detail>, listed: seq<nat>, ids: seq<nat>, e: nat)
    requires |details| == |listed| && forall i: nat :: i < |details| ==> details[i].employee == listed[i]
    requires listed == Sorted(IdSet(ids))
    ensures e in ids <==> Shows(details, e)
  {
    assert e in ids <==> e in IdSet(ids);
    assert e in listed <==> e in IdSet(ids);
    if e in listed {
      var i: nat :| i < |listed| && listed[i] == e;
      assert details[i].employee == e;
    }
    if i: nat :| i < |details| && details[i].employee == e {
      assert listed[i] in listed;
    }
  }

  lemma HoldersAreIds(table: Table, id: nat, ids: seq<nat>)
    requires forall p :: p in table && p.other == id ==> p.employee in ids
    requires forall i: nat :: i < |ids| ==> Pair(ids[i], id) in table
    ensures EmployeesOf(table, id) == IdSet(ids)
  {}
}
