/** syncx.KeyedMutex as an interleaving of goroutines: Lock takes the map lock,
    looks the key's mutex up or creates it, releases the map lock, and only then
    takes the key's mutex. It refines one lock per key. */
module KeyedMutex {
  import opened Results

  datatype Phase = Idle | WantMap | HasMap | Found | Waiting | Holding

  /** `mutex` is the local variable l. */
  datatype Goroutine<K> = Goroutine(key: K, phase: Phase, mutex: nat)

  /** `owner` maps every locked per-key mutex to its goroutine. */
  datatype State<K> = State(
    mapHolder: Option<nat>, locks: map<K, nat>, next: nat, owner: map<nat, nat>, gs: seq<Goroutine<K>>)

  datatype Action<K> = Call(g: nat, key: K) | TakeMap(g: nat) | Lookup(g: nat)
                     | ReleaseMap(g: nat) | TakeKey(g: nat) | Unlock(g: nat)

  predicate Enabled<K(!new)>(s: State<K>, a: Action<K>) {
    a.g < |s.gs| &&
    var g := s.gs[a.g];
    match a
    case Call(_, _) => g.phase == Idle
    case TakeMap(_) => g.phase == WantMap && s.mapHolder == None
    case Lookup(_) => g.phase == HasMap
    case ReleaseMap(_) => g.phase == Found
    case TakeKey(_) => g.phase == Waiting && g.mutex !in s.owner
    case Unlock(_) => g.phase == Holding
  }

  function Do<K(!new)>(s: State<K>, a: Action<K>): State<K>
    requires Enabled(s, a)
  {
    var g := s.gs[a.g];
    match a
    case Call(i, key) => s.(gs := s.gs[i := Goroutine(key, WantMap, 0)])
    case TakeMap(i) => s.(gs := s.gs[i := g.(phase := HasMap)], mapHolder := Some(i))
    case Lookup(i) =>
      if g.key in s.locks then s.(gs := s.gs[i := g.(phase := Found, mutex := s.locks[g.key])])
      else s.(gs := s.gs[i := g.(phase := Found, mutex := s.next)], locks := s.locks[g.key := s.next],
           next := s.next + 1)
    case ReleaseMap(i) => s.(gs := s.gs[i := g.(phase := Waiting)], mapHolder := None)
    case TakeKey(i) => s.(gs := s.gs[i := g.(phase := Holding)], owner := s.owner[g.mutex := i])
    case Unlock(i) => s.(gs := s.gs[i := g.(phase := Idle)], owner := s.owner - {g.mutex})
  }

  predicate InMap(p: Phase) { p == HasMap || p == Found }

  predicate KnowsMutex(p: Phase) { p == Found || p == Waiting || p == Holding }

  ghost predicate GoroutineOk<K(!new)>(s: State<K>, i: nat)
    requires i < |s.gs|
  {
    var g := s.gs[i];
    && (InMap(g.phase) ==> s.mapHolder == Some(i))
    && (KnowsMutex(g.phase) ==> g.key in s.locks && s.locks[g.key] == g.mutex)
    && (g.phase == Holding ==> g.mutex in s.owner && s.owner[g.mutex] == i)
  }

  ghost predicate LocksOk<K(!new)>(locks: map<K, nat>, next: nat) {
    && (forall k :: k in locks ==> locks[k] < next)
    && (forall k, k' :: k in locks && k' in locks && locks[k] == locks[k'] ==> k == k')
  }

  ghost predicate HoldsMutex<K(!new)>(s: State<K>, i: nat, m: nat) {
    i < |s.gs| && s.gs[i].phase == Holding && s.gs[i].mutex == m
  }

  ghost predicate OwnersOk<K(!new)>(s: State<K>) {
    forall m: nat :: m in s.owner ==> HoldsMutex(s, s.owner[m], m)
  }

  ghost predicate MapHolderOk<K(!new)>(s: State<K>) {
    s.mapHolder.Some? ==> s.mapHolder.value < |s.gs| && InMap(s.gs[s.mapHolder.value].phase)
  }

  ghost predicate Inv<K(!new)>(s: State<K>) {
    && LocksOk(s.locks, s.next) && OwnersOk(s) && MapHolderOk(s)
    && forall i: nat :: i < |s.gs| ==> GoroutineOk(s, i)
  }

  ghost predicate Init<K(!new)>(s: State<K>) {
    s.mapHolder == None && s.locks == map[] && s.owner == map[] && forall i: nat :: i < |s.gs| ==> s.gs[i].phase == Idle
  }

  lemma StepKeepsLocks<K(!new)>(s: State<K>, a: Action<K>)
    requires Enabled(s, a) && LocksOk(s.locks, s.next)
    ensures LocksOk(Do(s, a).locks, Do(s, a).next)
  {}

  lemma StepKeepsGoroutine<K(!new)>(s: State<K>, a: Action<K>, i: nat)
    requires Enabled(s, a) && i < |s.gs| && GoroutineOk(s, i) && GoroutineOk(s, a.g)
    ensures GoroutineOk(Do(s, a), i)
  {}

  lemma StepKeepsOwners<K(!new)>(s: State<K>, a: Action<K>)
    requires Enabled(s, a) && OwnersOk(s) && GoroutineOk(s, a.g)
    ensures OwnersOk(Do(s, a))
  {}

  lemma StepKeepsInv<K(!new)>(s: State<K>, a: Action<K>)
    requires Inv(s) && Enabled(s, a)
    ensures Inv(Do(s, a))
  {
    StepKeepsLocks(s, a);
    StepKeepsOwners(s, a);
    forall i: nat | i < |Do(s, a).gs| ensures GoroutineOk(Do(s, a), i) {
      StepKeepsGoroutine(s, a, i);
    }
  }

  ghost predicate ValidRun<K(!new)>(s: State<K>, run: seq<Action<K>>)
    decreases |run|
  {
    run == [] || (Enabled(s, run[0]) && ValidRun(Do(s, run[0]), run[1..]))
  }

  ghost function Final<K(!new)>(s: State<K>, run: seq<Action<K>>): State<K>
    requires ValidRun(s, run)
    decreases |run|
  {
    if run == [] then s else Final(Do(s, run[0]), run[1..])
  }

  lemma {:induction false} RunKeepsInv<K(!new)>(s: State<K>, run: seq<Action<K>>)
    requires Inv(s) && ValidRun(s, run)
    ensures Inv(Final(s, run))
    decreases |run|
  {
    if run != [] {
      StepKeepsInv(s, run[0]);
      RunKeepsInv(Do(s, run[0]), run[1..]);
    }
  }

  // ---- the guarantees ----

  /** At most one goroutine holds a key, although its mutex is taken after the
      map lock is released. */
  lemma OneHolderPerKey<K(!new)>(s0: State<K>, run: seq<Action<K>>, i: nat, j: nat)
    requires Init(s0) && ValidRun(s0, run)
    requires var s := Final(s0, run);
             i < |s.gs| && j < |s.gs| && s.gs[i].phase == Holding && s.gs[j].phase == Holding
             && s.gs[i].key == s.gs[j].key
    ensures i == j
  {
    RunKeepsInv(s0, run);
    var s := Final(s0, run);
    assert GoroutineOk(s, i) && GoroutineOk(s, j);
  }

  /** A key's mutex never changes, and distinct keys never share one. */
  lemma {:induction false} MutexesAreFixed<K(!new)>(s: State<K>, run: seq<Action<K>>, k: K, k': K)
    requires Inv(s) && ValidRun(s, run) && k in s.locks
    ensures k in Final(s, run).locks && Final(s, run).locks[k] == s.locks[k]
    ensures k' in Final(s, run).locks && k' != k ==> Final(s, run).locks[k'] != s.locks[k]
    decreases |run|
  {
    if run != [] {
      StepKeepsInv(s, run[0]);
      MutexesAreFixed(Do(s, run[0]), run[1..], k, k');
    }
  }

  /** A caller of Lock is never held up by holders of other keys: it can step,
      or the goroutine inside the map lock can (and leaves it in two steps), or
      its own key is held. */
  lemma OnlyOwnKeyBlocks<K(!new)>(s0: State<K>, run: seq<Action<K>>, i: nat)
    requires Init(s0) && ValidRun(s0, run)
    requires i < |Final(s0, run).gs| && Final(s0, run).gs[i].phase != Idle && Final(s0, run).gs[i].phase != Holding
    ensures var s := Final(s0, run);
            || (exists a: Action<K> :: a.g == i && Enabled(s, a))
            || (s.gs[i].phase == WantMap && s.mapHolder.Some? &&
                exists a: Action<K> :: a.g == s.mapHolder.value && Enabled(s, a))
            || (s.gs[i].phase == Waiting &&
                exists j: nat :: j < |s.gs| && j != i && s.gs[j].phase == Holding && s.gs[j].key == s.gs[i].key)
  {
    RunKeepsInv(s0, run);
    var s := Final(s0, run);
    match s.gs[i].phase
    case WantMap =>
      if s.mapHolder == None {
        assert Enabled(s, TakeMap(i));
      } else {
        var h := s.mapHolder.value;
        assert Enabled(s, if s.gs[h].phase == HasMap then Lookup(h) else ReleaseMap(h));
      }
    case HasMap => assert Enabled(s, Lookup(i));
    case Found => assert Enabled(s, ReleaseMap(i));
    case Waiting =>
      if s.gs[i].mutex !in s.owner {
        assert Enabled(s, TakeKey(i));
      } else {
        var j := s.owner[s.gs[i].mutex];
        assert HoldsMutex(s, j, s.gs[i].mutex) && GoroutineOk(s, j) && GoroutineOk(s, i);
      }
  }

  // ---- refinement of one lock per key ----

  /** The abstract state: which goroutine holds which key. */
  ghost function Held<K(!new)>(s: State<K>): map<K, nat> {
    map k | k in s.locks && s.locks[k] in s.owner :: s.owner[s.locks[k]]
  }

  lemma TakeKeyAcquires<K(!new)>(s: State<K>, i: nat)
    requires LocksOk(s.locks, s.next) && Enabled(s, TakeKey(i)) && GoroutineOk(s, i)
    ensures s.gs[i].key !in Held(s) && Held(Do(s, TakeKey(i))) == Held(s)[s.gs[i].key := i]
  {}

  lemma UnlockReleases<K(!new)>(s: State<K>, i: nat)
    requires LocksOk(s.locks, s.next) && Enabled(s, Unlock(i)) && GoroutineOk(s, i)
    ensures s.gs[i].key in Held(s) && Held(s)[s.gs[i].key] == i && Held(Do(s, Unlock(i))) == Held(s) - {s.gs[i].key}
  {}

  lemma NewMutexIsUnowned<K(!new)>(s: State<K>, i: nat)
    requires Inv(s) && Enabled(s, Lookup(i))
    ensures Held(Do(s, Lookup(i))) == Held(s)
  {
    forall m: nat | m in s.owner ensures m < s.next {
      assert HoldsMutex(s, s.owner[m], m) && GoroutineOk(s, s.owner[m]);
    }
  }

  /** TakeKey acquires a free key, Unlock releases the own one, and everything
      else leaves the abstract locks alone. */
  lemma RefinesLockPerKey<K(!new)>(s: State<K>, a: Action<K>)
    requires Inv(s) && Enabled(s, a)
    ensures a.TakeKey? ==> s.gs[a.g].key !in Held(s) && Held(Do(s, a)) == Held(s)[s.gs[a.g].key := a.g]
    ensures a.Unlock? ==>
              s.gs[a.g].key in Held(s) && Held(s)[s.gs[a.g].key] == a.g && Held(Do(s, a)) == Held(s) - {s.gs[a.g].key}
    ensures !a.TakeKey? && !a.Unlock? ==> Held(Do(s, a)) == Held(s)
  {
    assert GoroutineOk(s, a.g);
    match a
    case TakeKey(i) => TakeKeyAcquires(s, i);
    case Unlock(i) => UnlockReleases(s, i);
    case Lookup(i) => NewMutexIsUnowned(s, i);
    case _ =>
  }

  /** The abstract holder of a key is a goroutine that holds it, and conversely. */
  lemma HeldMeansHolding<K(!new)>(s: State<K>, k: K, i: nat)
    requires Inv(s) && i < |s.gs|
    ensures k in Held(s) && Held(s)[k] == i <==> s.gs[i].phase == Holding && s.gs[i].key == k
  {
    assert GoroutineOk(s, i);
    if k in Held(s) && Held(s)[k] == i {
      assert HoldsMutex(s, i, s.locks[k]);
    }
  }
}
