/** Lists of ids without repetitions. */
module Lists {
  predicate NoRepeats<T(==)>(s: seq<T>) {
    NoRepeatsUpTo(s, |s|)
  }

  predicate NoRepeatsUpTo<T(==)>(s: seq<T>, n: nat)
    requires n <= |s|
  {
    forall i: nat, j: nat :: i < j < n ==> s[i] != s[j]
  }
}
