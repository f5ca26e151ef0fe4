/**
 The ref-counted user locks as a state machine over every interleaving. A thread enters under the table mutex, waits
 for its lock object, and leaves again under the table mutex, where it looks the lock up by name a second time.
 */
module UserLocks {
  import opened Common

  type Tid = nat
  type LockId = nat
  type Name = string

  datatype Phase =
    | Waiting(name: Name, lock: LockId)     // counted, not yet inside
    | Holding(name: Name, lock: LockId)     // inside
    | Unlocking(name: Name, lock: LockId)   // inside, with the table mutex and the lock just looked up
    | Unlocked(name: Name, lock: LockId)    // outside, still counted and still with the table mutex

  datatype Lock = Lock(refCount: int, held: bool)

  // Lock objects are numbered as they are made. A thread that is not in `threads` is in neither call.
  datatype State = State(table: map<Name, LockId>, locks: seq<Lock>, mutex: Option<Tid>, threads: map<Tid, Phase>)

  const INIT := State(map[], [], None, map[])

  datatype Action = Enter(t: Tid, name: Name) | Acquire(t: Tid) | Leave(t: Tid) | Unlock(t: Tid) | Drop(t: Tid)

  // ---- The steps ----

  predicate Enabled(s: State, a: Action) {
    match a
    case Enter(t, _) => t !in s.threads && s.mutex.None?
    case Acquire(t) =>
      t in s.threads && s.threads[t].Waiting? && s.threads[t].lock < |s.locks| && !s.locks[s.threads[t].lock].held
    case Leave(t) => t in s.threads && s.threads[t].Holding? && s.mutex.None?
    case Unlock(t) => t in s.threads && s.threads[t].Unlocking?
    case Drop(t) => t in s.threads && s.threads[t].Unlocked?
  }

  function Count(s: State, l: LockId, delta: int): seq<Lock> {
    if l < |s.locks| then s.locks[l := s.locks[l].(refCount := s.locks[l].refCount + delta)] else s.locks
  }

  function Held(s: State, l: LockId, held: bool): seq<Lock> {
    if l < |s.locks| then s.locks[l := s.locks[l].(held := held)] else s.locks
  }

  function Next(s: State, a: Action): State
    requires Enabled(s, a)
  {
    match a
    case Enter(t, name) =>
      var l := if name in s.table then s.table[name] else |s.locks|;
      s.(table := s.table[name := l],
         locks := if name in s.table then Count(s, l, 1) else s.locks + [Lock(1, false)],
         threads := s.threads[t := Waiting(name, l)])
    case Acquire(t) =>
      var Waiting(name, l) := s.threads[t];
      s.(locks := Held(s, l, true), threads := s.threads[t := Holding(name, l)])
    case Leave(t) =>
      // without an entry, unlockUser returns and leaves the lock held
      var name := s.threads[t].name;
      if name !in s.table then s.(threads := s.threads - {t})
      else s.(mutex := Some(t), threads := s.threads[t := Unlocking(name, s.table[name])])
    case Unlock(t) =>
      var Unlocking(name, l) := s.threads[t];
      s.(locks := Held(s, l, false), threads := s.threads[t := Unlocked(name, l)])
    case Drop(t) =>
      var Unlocked(name, l) := s.threads[t];
      var locks := Count(s, l, -1);
      s.(mutex := None, threads := s.threads - {t}, locks := locks,
         table := if l < |locks| && locks[l].refCount == 0 then s.table - {name} else s.table)
  }

  // ---- The invariant ----

  // The threads counted under a name: inside, waiting, or not yet done leaving.
  function Engaged(s: State, name: Name): set<Tid> {
    set t | t in s.threads && s.threads[t].name == name
  }

  predicate Inside(p: Phase) { p.Holding? || p.Unlocking? }

  predicate Owns(s: State, t: Tid, name: Name) {
    t in s.threads && s.threads[t].name == name && Inside(s.threads[t])
  }

  // A counted thread has the lock object that the table has, and each name has a lock object of its own.
  predicate Tabled(s: State) {
    && (forall t <- s.threads :: s.threads[t].name in s.table && s.table[s.threads[t].name] == s.threads[t].lock)
    && (forall n <- s.table :: s.table[n] < |s.locks|)
    && (forall m, n | m in s.table && n in s.table && m != n :: s.table[m] != s.table[n])
  }

  // The count of a lock object in the table is the number of counted threads, and positive.
  predicate Counted(s: State)
    requires Tabled(s)
  {
    forall n <- s.table :: s.locks[s.table[n]].refCount == |Engaged(s, n)| && Engaged(s, n) != {}
  }

  // A lock object is held exactly while a thread is inside, and then by one thread.
  ghost predicate Exclusive(s: State)
    requires Tabled(s)
  {
    && (forall n <- s.table :: s.locks[s.table[n]].held <==> exists t :: Owns(s, t, n))
    && (forall t, u, n | Owns(s, t, n) && Owns(s, u, n) :: t == u)
  }

  // The table mutex is held exactly by the thread that is unlocking.
  predicate Mutexed(s: State) {
    && (forall t <- s.threads :: s.mutex == Some(t) <==> s.threads[t].Unlocking? || s.threads[t].Unlocked?)
    && (s.mutex.Some? ==> s.mutex.value in s.threads)
  }

  ghost predicate Inv(s: State) {
    Tabled(s) && Counted(s) && Exclusive(s) && Mutexed(s)
  }

  lemma InitInv()
    ensures Inv(INIT)
  {
  }

  lemma EngagedWith(s: State, s': State, t: Tid, n: Name)
    requires forall u :: u != t ==> (u in s.threads <==> u in s'.threads)
    requires forall u :: u != t && u in s.threads ==> s.threads[u].name == s'.threads[u].name
    ensures Engaged(s', n) == (Engaged(s, n) - {t}) + (if t in s'.threads && s'.threads[t].name == n then {t} else {})
    ensures t in s.threads && t in s'.threads && s.threads[t].name == s'.threads[t].name ==>
              Engaged(s', n) == Engaged(s, n)
  {
  }

  // A step that moves one thread on without changing names or counts.
  lemma SameCounts(s: State, s': State, t: Tid)
    requires Tabled(s) && Counted(s) && t in s.threads && s'.table == s.table && |s'.locks| == |s.locks|
    requires forall l :: 0 <= l < |s.locks| ==> s'.locks[l].refCount == s.locks[l].refCount
    requires t in s'.threads && s'.threads == s.threads[t := s'.threads[t]]
    requires s'.threads[t].name == s.threads[t].name && s'.threads[t].lock == s.threads[t].lock
    ensures Tabled(s') && Counted(s')
  {
    forall u <- s'.threads
      ensures u in s.threads && s'.threads[u].name == s.threads[u].name && s'.threads[u].lock == s.threads[u].lock {}
    forall n <- s.table ensures Engaged(s', n) == Engaged(s, n) { EngagedWith(s, s', t, n); }
  }

  lemma EnterTabled(s: State, t: Tid, name: Name)
    requires Tabled(s) && Enabled(s, Enter(t, name))
    ensures Tabled(Next(s, Enter(t, name)))
  {
  }

  lemma EnterEngaged(s: State, t: Tid, name: Name)
    requires Tabled(s) && Enabled(s, Enter(t, name))
    ensures var s' := Next(s, Enter(t, name));
      forall n :: Engaged(s', n) == if n == name then Engaged(s, n) + {t} else Engaged(s, n)
    ensures t !in Engaged(s, name) && (name !in s.table ==> Engaged(s, name) == {})
  {
    forall n ensures Engaged(Next(s, Enter(t, name)), n) == if n == name then Engaged(s, n) + {t} else Engaged(s, n) {
      EngagedWith(s, Next(s, Enter(t, name)), t, n);
    }
  }

  lemma EnterCounted(s: State, t: Tid, name: Name)
    requires Tabled(s) && Counted(s) && Enabled(s, Enter(t, name)) && Tabled(Next(s, Enter(t, name)))
    ensures Counted(Next(s, Enter(t, name)))
  {
    var s' := Next(s, Enter(t, name));
    EnterEngaged(s, t, name);
    forall n <- s'.table ensures s'.locks[s'.table[n]].refCount == |Engaged(s', n)| && Engaged(s', n) != {} {
      if n == name {
        assert |Engaged(s, n) + {t}| == |Engaged(s, n)| + 1;
      } else {
        assert s'.locks[s.table[n]] == s.locks[s.table[n]];
      }
    }
  }

  lemma EnterExclusive(s: State, t: Tid, name: Name)
    requires Tabled(s) && Exclusive(s) && Enabled(s, Enter(t, name)) && Tabled(Next(s, Enter(t, name)))
    ensures Exclusive(Next(s, Enter(t, name)))
  {
    var s' := Next(s, Enter(t, name));
    forall n: Name, u: Tid ensures Owns(s', u, n) == Owns(s, u, n) {}
    forall n <- s'.table ensures s'.locks[s'.table[n]].held <==> exists u :: Owns(s', u, n) {
      if n in s.table {
        assert s'.table[n] == s.table[n] && s'.locks[s.table[n]].held == s.locks[s.table[n]].held;
      } else {
        assert !s'.locks[s'.table[n]].held;
      }
    }
  }

  lemma AcquireExclusive(s: State, t: Tid)
    requires Tabled(s) && Exclusive(s) && Enabled(s, Acquire(t)) && Tabled(Next(s, Acquire(t)))
    ensures Exclusive(Next(s, Acquire(t)))
  {
    var s' := Next(s, Acquire(t));
    var name := s.threads[t].name;
    forall n, u ensures Owns(s', u, n) <==> Owns(s, u, n) || (u == t && n == name) {}
    assert Owns(s', t, name);
    assert !s.locks[s.table[name]].held;
    forall n <- s.table | n != name ensures s'.locks[s.table[n]] == s.locks[s.table[n]] {}
  }

  lemma UnlockExclusive(s: State, t: Tid)
    requires Tabled(s) && Exclusive(s) && Enabled(s, Unlock(t)) && Tabled(Next(s, Unlock(t)))
    ensures Exclusive(Next(s, Unlock(t)))
  {
    var s' := Next(s, Unlock(t));
    var name := s.threads[t].name;
    assert Owns(s, t, name);
    forall n, u ensures Owns(s', u, n) <==> Owns(s, u, n) && u != t {}
    forall n <- s.table | n != name ensures s'.locks[s.table[n]] == s.locks[s.table[n]] {}
    forall u, n | n != name && Owns(s, u, n) ensures u != t {}
  }

  // The entry goes with the last counted thread.
  lemma DropEngaged(s: State, t: Tid)
    requires Tabled(s) && Counted(s) && Enabled(s, Drop(t))
    ensures var s', name := Next(s, Drop(t)), s.threads[t].name;
      && (forall n :: Engaged(s', n) == if n == name then Engaged(s, n) - {t} else Engaged(s, n))
      && s'.locks[s.table[name]].refCount == |Engaged(s', name)|
      && s'.table == (if Engaged(s', name) == {} then s.table - {name} else s.table)
  {
    var s', name := Next(s, Drop(t)), s.threads[t].name;
    forall n ensures Engaged(s', n) == if n == name then Engaged(s, n) - {t} else Engaged(s, n) {
      EngagedWith(s, s', t, n);
    }
    assert t in Engaged(s, name);
    assert |Engaged(s', name)| == |Engaged(s, name)| - 1;
  }

  lemma DropTabled(s: State, t: Tid)
    requires Tabled(s) && Counted(s) && Enabled(s, Drop(t))
    ensures Tabled(Next(s, Drop(t)))
  {
    var s', name := Next(s, Drop(t)), s.threads[t].name;
    DropEngaged(s, t);
    if Engaged(s', name) == {} {
      forall u | u in s'.threads ensures s'.threads[u].name != name { assert u !in Engaged(s', name); }
    }
  }

  lemma DropCounted(s: State, t: Tid)
    requires Tabled(s) && Counted(s) && Enabled(s, Drop(t)) && Tabled(Next(s, Drop(t)))
    ensures Counted(Next(s, Drop(t)))
  {
    var s', name := Next(s, Drop(t)), s.threads[t].name;
    DropEngaged(s, t);
    forall n <- s'.table ensures s'.locks[s'.table[n]].refCount == |Engaged(s', n)| && Engaged(s', n) != {} {
      if n != name { assert s'.locks[s.table[n]] == s.locks[s.table[n]]; }
    }
  }

  lemma DropExclusive(s: State, t: Tid)
    requires Tabled(s) && Exclusive(s) && Enabled(s, Drop(t)) && Tabled(Next(s, Drop(t)))
    ensures Exclusive(Next(s, Drop(t)))
  {
    var s' := Next(s, Drop(t));
    forall n: Name, u: Tid ensures Owns(s', u, n) == Owns(s, u, n) {}
    forall n <- s'.table ensures s'.locks[s'.table[n]].held <==> exists u :: Owns(s', u, n) {
      assert s'.locks[s'.table[n]].held == s.locks[s.table[n]].held;
    }
  }

  lemma LeaveExclusive(s: State, t: Tid)
    requires Tabled(s) && Exclusive(s) && Enabled(s, Leave(t)) && Tabled(Next(s, Leave(t)))
    ensures Exclusive(Next(s, Leave(t)))
  {
    var s' := Next(s, Leave(t));
    forall n: Name, u: Tid ensures Owns(s', u, n) <==> Owns(s, u, n) {}
  }

  lemma StepTabled(s: State, a: Action)
    requires Tabled(s) && Counted(s) && Enabled(s, a)
    ensures Tabled(Next(s, a)) && Counted(Next(s, a))
  {
    match a
    case Enter(t, name) =>
      EnterTabled(s, t, name);
      EnterCounted(s, t, name);
    case Drop(t) =>
      DropTabled(s, t);
      DropCounted(s, t);
    case Acquire(t) => SameCounts(s, Next(s, a), t);
    case Leave(t) => SameCounts(s, Next(s, a), t);
    case Unlock(t) => SameCounts(s, Next(s, a), t);
  }

  lemma StepMutexed(s: State, a: Action)
    requires Mutexed(s) && Tabled(s) && Enabled(s, a)
    ensures Mutexed(Next(s, a))
  {
  }

  lemma StepInv(s: State, a: Action)
    requires Inv(s) && Enabled(s, a)
    ensures Inv(Next(s, a))
  {
    StepTabled(s, a);
    StepMutexed(s, a);
    match a
    case Enter(t, name) => EnterExclusive(s, t, name);
    case Acquire(t) => AcquireExclusive(s, t);
    case Leave(t) => LeaveExclusive(s, t);
    case Unlock(t) => UnlockExclusive(s, t);
    case Drop(t) => DropExclusive(s, t);
  }

  // ---- Runs ----

  // s' can be reached from s by a run of steps.
  predicate Runs(s: State, run: seq<Action>, s': State)
    decreases |run|
  {
    if run == [] then s == s'
    else Enabled(s, run[0]) && Runs(Next(s, run[0]), run[1..], s')
  }

  lemma {:induction false} RunInv(s: State, run: seq<Action>, s': State)
    requires Inv(s) && Runs(s, run, s')
    ensures Inv(s')
    decreases |run|
  {
    if run != [] {
      StepInv(s, run[0]);
      RunInv(Next(s, run[0]), run[1..], s');
    }
  }

  // Over every interleaving: two threads never hold lock objects for the same name, across deletion and re-creation;
  // a thread inside holds the very object the table has; the count is holders plus waiters plus the thread that is
  // leaving; and an entry exists exactly while that is positive.
  lemma MutualExclusion(run: seq<Action>, s: State)
    requires Runs(INIT, run, s)
    ensures forall t, u, name :: Owns(s, t, name) && Owns(s, u, name) ==> t == u
    ensures forall t, name :: Owns(s, t, name) ==> name in s.table && s.table[name] == s.threads[t].lock
    ensures forall name :: name in s.table <==> Engaged(s, name) != {}
    ensures forall name :: name in s.table ==>
              s.table[name] < |s.locks| && s.locks[s.table[name]].refCount == |Engaged(s, name)|
  {
    InitInv();
    RunInv(INIT, run, s);
    forall name ensures name in s.table <==> Engaged(s, name) != {} {
      if Engaged(s, name) != {} {
        var t :| t in Engaged(s, name);
      }
    }
  }

  // The fallible moves of leaving never fail: the entry is there, and the lock that is unlocked is held.
  lemma LeavingIsSafe(run: seq<Action>, s: State, t: Tid)
    requires Runs(INIT, run, s) && t in s.threads
    ensures s.threads[t].Holding? ==> s.threads[t].name in s.table
    ensures s.threads[t].Unlocking? ==> s.threads[t].lock < |s.locks| && s.locks[s.threads[t].lock].held
    ensures s.threads[t].Unlocked? ==> s.threads[t].lock < |s.locks| && s.locks[s.threads[t].lock].refCount > 0
  {
    InitInv();
    RunInv(INIT, run, s);
    assert t in Engaged(s, s.threads[t].name);
    if s.threads[t].Unlocking? { assert Owns(s, t, s.threads[t].name); }
  }

  // No waiter is stuck: it can enter at once unless some other thread is inside, and a thread inside can always go on
  // to leave, at worst after the thread that has the table mutex.
  lemma WaiterProceeds(run: seq<Action>, s: State, t: Tid)
    requires Runs(INIT, run, s) && t in s.threads && s.threads[t].Waiting?
    ensures Enabled(s, Acquire(t)) <==> !(exists u :: Owns(s, u, s.threads[t].name))
    ensures forall u :: Owns(s, u, s.threads[t].name) ==>
              Enabled(s, Leave(u)) || Enabled(s, Unlock(u))
              || (s.mutex.Some? && (Enabled(s, Unlock(s.mutex.value)) || Enabled(s, Drop(s.mutex.value))))
  {
    InitInv();
    RunInv(INIT, run, s);
  }

  // ---- Refinement: an atomic lock for each name ----

  // Who is inside, by name.
  function Abs(s: State): set<(Name, Tid)> {
    set t | t in s.threads && Inside(s.threads[t]) :: (s.threads[t].name, t)
  }

  datatype AtomicStep = Take(name: Name, t: Tid) | Release(name: Name, t: Tid) | Nothing

  ghost predicate AtomicNext(o: set<(Name, Tid)>, step: AtomicStep, o': set<(Name, Tid)>) {
    match step
    case Take(name, t) => (forall u :: (name, u) !in o) && o' == o + {(name, t)}
    case Release(name, t) => (name, t) in o && o' == o - {(name, t)}
    case Nothing => o' == o
  }

  function Meaning(s: State, a: Action): AtomicStep
    requires Enabled(s, a)
  {
    match a
    case Acquire(t) => Take(s.threads[t].name, t)
    case Unlock(t) => Release(s.threads[t].name, t)
    case _ => Nothing
  }

  lemma AbsIs(s: State)
    ensures forall n: Name, u: Tid :: (n, u) in Abs(s) <==> Owns(s, u, n)
  {
  }

  // Who is inside after a step.
  lemma OwnsNext(s: State, a: Action, n: Name, u: Tid)
    requires Inv(s) && Enabled(s, a)
    ensures Owns(Next(s, a), u, n) <==>
      match Meaning(s, a)
      case Take(name, t) => Owns(s, u, n) || (n, u) == (name, t)
      case Release(name, t) => Owns(s, u, n) && (n, u) != (name, t)
      case Nothing => Owns(s, u, n)
  {
  }

  // Every step is a step of the atomic lock: taking a free name, releasing one's own, or nothing.
  lemma Refines(s: State, a: Action)
    requires Inv(s) && Enabled(s, a)
    ensures AtomicNext(Abs(s), Meaning(s, a), Abs(Next(s, a)))
  {
    AbsIs(s);
    AbsIs(Next(s, a));
    forall n: Name, u: Tid { OwnsNext(s, a, n, u); }
    match a
    case Acquire(t) =>
      assert !s.locks[s.table[s.threads[t].name]].held;
    case Unlock(t) =>
      assert Owns(s, t, s.threads[t].name);
    case _ =>
  }

  // ---- Every thread comes through ----

  // The steps that a thread has left.
  function Left(s: State, t: Tid): nat {
    if t !in s.threads then 0
    else match s.threads[t]
      case Waiting(_, _) => 4
      case Holding(_, _) => 3
      case Unlocking(_, _) => 2
      case Unlocked(_, _) => 1
  }

  // Each step takes its thread one further, and no other thread: into the lock object of its name and out again.
  lemma ThreadGoesOn(s: State, a: Action, u: Tid)
    requires Inv(s) && Enabled(s, a)
    ensures u != a.t ==> Left(Next(s, a), u) == Left(s, u)
    ensures u == a.t ==> Left(Next(s, a), u) == if a.Enter? then 4 else Left(s, u) - 1
    ensures u == a.t && a.Enter? ==> Next(s, a).threads[u].name == a.name
    ensures u in s.threads && u in Next(s, a).threads ==>
              Next(s, a).threads[u].name == s.threads[u].name && Next(s, a).threads[u].lock == s.threads[u].lock
  {
    if a.t in s.threads { assert s.threads[a.t].name in s.table; }
  }

  // A step of a thread outside needs the table mutex, and so does the first step out of the lock; a thread between has
  // one way on, which needs the lock or nothing.
  lemma GuardsExactly(s: State, a: Action)
    requires Inv(s)
    ensures Enabled(s, a) <==>
      match Left(s, a.t)
      case 0 => a.Enter? && s.mutex.None?
      case 4 => a.Acquire? && !(exists u :: Owns(s, u, s.threads[a.t].name))
      case 3 => a.Leave? && s.mutex.None?
      case 2 => a.Unlock?
      case _ => a.Drop?
  {
    if a.t in s.threads {
      assert s.locks[s.table[s.threads[a.t].name]].held <==> exists u :: Owns(s, u, s.threads[a.t].name);
    }
  }

  // A thread inside a lock that it made, with nobody else counted under the name.
  function InsideAlone(s: State, t: Tid, name: Name): State {
    s.(table := s.table[name := |s.locks|], locks := s.locks + [Lock(1, true)],
       threads := s.threads[t := Holding(name, |s.locks|)])
  }

  // Alone, a thread goes in by two steps and out by three, and everything is as before but for the lock object it made.
  lemma GoesIn(s: State, t: Tid, name: Name)
    requires t !in s.threads && s.mutex.None? && name !in s.table
    ensures Runs(s, [Enter(t, name), Acquire(t)], InsideAlone(s, t, name))
  {
    var l, s2 := |s.locks|, InsideAlone(s, t, name);
    var s1 := s.(table := s.table[name := l], locks := s.locks + [Lock(1, false)],
                 threads := s.threads[t := Waiting(name, l)]);
    assert Next(s, Enter(t, name)) == s1;
    assert Next(s1, Acquire(t)) == s2;
    OneStep(s1, Acquire(t), [], s2);
    OneStep(s, Enter(t, name), [Acquire(t)], s2);
  }

  lemma GoesOut(s: State, t: Tid, name: Name)
    requires t !in s.threads && s.mutex.None? && name !in s.table
    ensures Runs(InsideAlone(s, t, name), [Leave(t), Unlock(t), Drop(t)], s.(locks := s.locks + [Lock(0, false)]))
  {
    var l, s2, e := |s.locks|, InsideAlone(s, t, name), s.(locks := s.locks + [Lock(0, false)]);
    var s3 := s2.(mutex := Some(t), threads := s.threads[t := Unlocking(name, l)]);
    var s4 := s3.(locks := s.locks + [Lock(1, false)], threads := s.threads[t := Unlocked(name, l)]);
    assert Next(s2, Leave(t)) == s3;
    assert Next(s3, Unlock(t)) == s4;
    assert s4.table - {name} == s.table && s4.threads - {t} == s.threads;
    assert Next(s4, Drop(t)) == e;
    OneStep(s4, Drop(t), [], e);
    OneStep(s3, Unlock(t), [Drop(t)], e);
    OneStep(s2, Leave(t), [Unlock(t), Drop(t)], e);
  }

  lemma OneStep(s: State, a: Action, rest: seq<Action>, s': State)
    requires Enabled(s, a) && Runs(Next(s, a), rest, s')
    ensures Runs(s, [a] + rest, s')
  {
    assert ([a] + rest)[1..] == rest;
  }
}
