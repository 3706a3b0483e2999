/** employee_positions and employee_stores: tables whose primary key is a pair
    of ids, with the statements and the ordered listings on them. */
module PairTable {
  datatype Pair = Pair(employee: nat, other: nat)

  type Table = set<Pair>

  function OthersOf(table: Table, e: nat): set<nat> {
    set p | p in table && p.employee == e :: p.other
  }

  function EmployeesOf(table: Table, o: nat): set<nat> {
    set p | p in table && p.other == o :: p.employee
  }

  // ---- the statements of a whole-set replace ----

  /** WHERE employee_id = e AND other != ALL(keep). */
  function DeleteOthersNotIn(table: Table, e: nat, keep: seq<nat>): Table {
    set p | p in table && !(p.employee == e && p.other !in keep)
  }

  /** INSERT ... SELECT e, unnest(ids) ON CONFLICT DO NOTHING. */
  function InsertOthers(table: Table, e: nat, ids: seq<nat>): Table {
    table + set i | 0 <= i < |ids| :: Pair(e, ids[i])
  }

  function DeleteEmployeesNotIn(table: Table, o: nat, keep: seq<nat>): Table {
    set p | p in table && !(p.other == o && p.employee !in keep)
  }

  function InsertEmployees(table: Table, o: nat, ids: seq<nat>): Table {
    table + set i | 0 <= i < |ids| :: Pair(ids[i], o)
  }

  /** The employee-first replace gives e exactly `ids` and keeps all other pairs. */
  lemma OthersReplaced(table: Table, e: nat, ids: seq<nat>, p: Pair)
    ensures p in InsertOthers(DeleteOthersNotIn(table, e, ids), e, ids) <==>
            if p.employee == e then p.other in ids else p in table
  {}

  /** The position-first replace gives o exactly `ids` and keeps all other pairs. */
  lemma EmployeesReplaced(table: Table, o: nat, ids: seq<nat>, p: Pair)
    ensures p in InsertEmployees(DeleteEmployeesNotIn(table, o, ids), o, ids) <==>
            if p.other == o then p.employee in ids else p in table
  {}

  // ---- ORDER BY ----

  predicate Increasing(s: seq<nat>) {
    forall i: nat, j: nat :: i < j < |s| ==> s[i] < s[j]
  }

  predicate Least(S: set<nat>, m: nat) {
    m in S && forall x :: x in S ==> m <= x
  }

  lemma {:induction false} LeastExists(S: set<nat>)
    requires S != {}
    ensures exists m: nat :: Least(S, m)
    decreases |S|
  {
    var y :| y in S;
    if S == {y} {
      assert Least(S, y);
    } else {
      LeastExists(S - {y});
      var m: nat :| Least(S - {y}, m);
      var least := if y < m then y else m;
      forall x | x in S ensures least <= x {
        assert x == y || x in S - {y};
      }
      assert Least(S, least);
    }
  }

  /** The ids in increasing order. */
  function Sorted(S: set<nat>): (r: seq<nat>)
    ensures Increasing(r) && forall x :: x in r <==> x in S
    decreases |S|
  {
    if S == {} then []
    else
      LeastExists(S);
      var m :| m in S && Least(S, m);
      [m] + Sorted(S - {m})
  }

  lemma FirstIsMember(s: seq<nat>)
    ensures s != [] ==> s[0] in s
  {}

  /** An increasing sequence is determined by its members. */
  lemma {:induction false} SortedIsUnique(s: seq<nat>, t: seq<nat>)
    requires Increasing(s) && Increasing(t) && forall x :: x in s <==> x in t
    ensures s == t
    decreases |s|
  {
    FirstIsMember(t);
    if s != [] {
      assert s[0] in t && t[0] in s;
      forall x ensures x in s[1..] <==> x in t[1..] {
        assert x in s[1..] <==> x in s && x != s[0];
        assert x in t[1..] <==> x in t && x != t[0];
      }
      SortedIsUnique(s[1..], t[1..]);
    }
  }

  // ---- the bulk listing ----

  predicate Before(p: Pair, q: Pair) {
    p.employee < q.employee || (p.employee == q.employee && p.other < q.other)
  }

  predicate InOrder(rows: seq<Pair>) {
    forall i: nat, j: nat :: i < j < |rows| ==> Before(rows[i], rows[j])
  }

  /** WHERE employee_id = ANY(ids) ORDER BY employee_id, other. */
  ghost predicate IsListing(rows: seq<Pair>, table: Table, ids: seq<nat>) {
    InOrder(rows) && forall p :: p in rows <==> p in table && p.employee in ids
  }

  /** The others of the rows for e among the first n, in row order. */
  function Slice(rows: seq<Pair>, e: nat, n: nat): seq<nat>
    requires n <= |rows|
  {
    if n == 0 then [] else Slice(rows, e, n - 1) + if rows[n - 1].employee == e then [rows[n - 1].other] else []
  }

  lemma {:induction false} SliceMembers(rows: seq<Pair>, e: nat, n: nat, x: nat)
    requires n <= |rows|
    ensures x in Slice(rows, e, n) <==> exists k: nat :: k < n && rows[k] == Pair(e, x)
  {
    if n > 0 {
      SliceMembers(rows, e, n - 1, x);
    }
  }

  lemma {:induction false} SliceIncreasing(rows: seq<Pair>, e: nat, n: nat)
    requires n <= |rows| && InOrder(rows)
    ensures Increasing(Slice(rows, e, n))
  {
    if n > 0 {
      SliceIncreasing(rows, e, n - 1);
      var s := Slice(rows, e, n - 1);
      if rows[n - 1].employee == e {
        forall i: nat | i < |s| ensures s[i] < rows[n - 1].other {
          SliceMembers(rows, e, n - 1, s[i]);
        }
      }
    }
  }

  /** e's rows of the bulk listing are what the query for e alone returns. */
  lemma SliceIsOwnListing(rows: seq<Pair>, table: Table, ids: seq<nat>, e: nat)
    requires IsListing(rows, table, ids) && e in ids
    ensures Slice(rows, e, |rows|) == Sorted(OthersOf(table, e))
  {
    var n := |rows|;
    SliceIncreasing(rows, e, n);
    forall x: nat ensures x in Slice(rows, e, n) <==> x in OthersOf(table, e) {
      SliceMembers(rows, e, n, x);
      assert Pair(e, x) in rows <==> Pair(e, x) in table;
      assert x in OthersOf(table, e) <==> Pair(e, x) in table;
    }
    SortedIsUnique(Slice(rows, e, n), Sorted(OthersOf(table, e)));
  }

  function RowsOf(e: nat, others: seq<nat>): (r: seq<Pair>)
    ensures |r| == |others|
  {
    seq(|others|, i requires 0 <= i < |others| => Pair(e, others[i]))
  }

  lemma RowsOfMembers(table: Table, e: nat, p: Pair)
    ensures p in RowsOf(e, Sorted(OthersOf(table, e))) <==> p in table && p.employee == e
  {
    var others := Sorted(OthersOf(table, e));
    if p in RowsOf(e, others) {
      var i: nat :| i < |others| && RowsOf(e, others)[i] == p;
      assert others[i] in others;
    }
    if p in table && p.employee == e {
      assert p.other in OthersOf(table, e) && p.other in others;
      var i: nat :| i < |others| && others[i] == p.other;
      assert RowsOf(e, others)[i] == p;
    }
  }

  function RowsOfAll(table: Table, es: seq<nat>): seq<Pair> {
    if es == [] then [] else RowsOf(es[0], Sorted(OthersOf(table, es[0]))) + RowsOfAll(table, es[1..])
  }

  /** ListPositionIDsByEmployeeIDs and ListStoreIDsByEmployeeIDs. */
  function Listing(table: Table, ids: seq<nat>): seq<Pair> {
    RowsOfAll(table, Sorted(set i | 0 <= i < |ids| :: ids[i]))
  }

  lemma {:induction false} RowsOfAllInOrder(table: Table, es: seq<nat>)
    requires Increasing(es)
    ensures InOrder(RowsOfAll(table, es)) && forall p :: p in RowsOfAll(table, es) <==> p in table && p.employee in es
  {
    if es != [] {
      var e := es[0];
      var others := Sorted(OthersOf(table, e));
      var rest := RowsOfAll(table, es[1..]);
      RowsOfAllInOrder(table, es[1..]);
      forall p: Pair ensures p in RowsOf(e, others) <==> p in table && p.employee == e {
        RowsOfMembers(table, e, p);
      }
      forall q | q in rest ensures e < q.employee {}
      assert es == [e] + es[1..];
    }
  }

  lemma ListingIsListing(table: Table, ids: seq<nat>)
    ensures IsListing(Listing(table, ids), table, ids)
  {
    RowsOfAllInOrder(table, Sorted(set i | 0 <= i < |ids| :: ids[i]));
  }
}
