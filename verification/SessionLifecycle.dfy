/**
 Adding, closing and tearing down the instances of one session, over every interleaving: each critical section is one
 step, and the closing of an instance takes three of them.
 */
module SessionLifecycle {
  import opened SessionCore

  type Tid = nat

  // What a thread does after it closed an instance: return, or go on through the instances CloseSession found.
  datatype Work = Single | Sweep(todo: set<Iid>)

  datatype Pc =
    | Detaching(i: Iid, work: Work)   // the instance is marked closed, not yet removed
    | Calling(work: Work)             // removed the last instance, about to call back
    | Marked                          // in CloseSession, the session marked closed
    | Sweeping(todo: set<Iid>)        // in CloseSession, closing one instance after the other

  // `shut` has the instances that are marked closed, `fired` counts the calls of the session-close callback.
  datatype State = State(core: Core, shut: set<Iid>, threads: map<Tid, Pc>, fired: nat)

  const INIT := State(EMPTY, {}, map[], 0)

  datatype Action =
    | AddInstance
    | CloseInstance(t: Tid, i: Iid)
    | Remove(t: Tid)
    | Callback(t: Tid)
    | CloseSession(t: Tid)
    | Snapshot(t: Tid)
    | CloseNext(t: Tid, i: Iid)
    | Finish(t: Tid)

  predicate Enabled(s: State, a: Action) {
    match a
    case AddInstance => !Add(s.core).Exhausted?
    case CloseInstance(t, i) => t !in s.threads && i < |s.core.numOf|
    case Remove(t) => t in s.threads && s.threads[t].Detaching? && s.threads[t].i < |s.core.numOf|
    case Callback(t) => t in s.threads && s.threads[t].Calling?
    case CloseSession(t) => t !in s.threads
    case Snapshot(t) => t in s.threads && s.threads[t].Marked?
    case CloseNext(t, i) => t in s.threads && s.threads[t].Sweeping? && i in s.threads[t].todo
    case Finish(t) => t in s.threads && s.threads[t].Sweeping? && s.threads[t].todo == {}
  }

  function Goto(s: State, t: Tid, pc: Pc): State {
    s.(threads := s.threads[t := pc])
  }

  function Resume(s: State, t: Tid, work: Work): State {
    match work
    case Single => s.(threads := s.threads - {t})
    case Sweep(todo) => Goto(s, t, Sweeping(todo))
  }

  // Marks an instance closed, unless someone did before.
  function Shut(s: State, t: Tid, i: Iid, work: Work): State {
    if i in s.shut then Resume(s, t, work)
    else Goto(s.(shut := s.shut + {i}), t, Detaching(i, work))
  }

  function Next(s: State, a: Action): State
    requires Enabled(s, a)
  {
    match a
    case AddInstance =>
      (match Add(s.core) case Joined(c, _) => s.(core := c) case _ => s)
    case CloseInstance(t, i) => Shut(s, t, i, Single)
    case Remove(t) =>
      var Detaching(i, work) := s.threads[t];
      var s' := s.(core := Detach(s.core, i));
      if s'.core.nums == map[] then Goto(s', t, Calling(work)) else Resume(s', t, work)
    case Callback(t) => Resume(s.(fired := s.fired + 1), t, s.threads[t].work)
    case CloseSession(t) => Goto(s.(core := s.core.(closed := true)), t, Marked)
    case Snapshot(t) => Goto(s, t, Sweeping(s.core.nums.Values))
    case CloseNext(t, i) => Shut(s, t, i, Sweep(s.threads[t].todo - {i}))
    case Finish(t) => s.(threads := s.threads - {t})
  }

  // ---- The invariant ----

  function Callers(s: State): set<Tid> {
    set t | t in s.threads && s.threads[t].Calling?
  }

  // All instances ever added were removed again.
  predicate Departed(c: Core) { c.numOf != [] && c.ordered == [] }

  predicate Covers(s: State, todo: set<Iid>) {
    s.core.closed && forall i: Iid | i < |s.core.numOf| && i !in s.shut :: i in todo
  }

  predicate WorkOk(s: State, w: Work) {
    w.Sweep? ==> Covers(s, w.todo) && forall i <- w.todo :: i < |s.core.numOf|
  }

  predicate PcOk(s: State, p: Pc) {
    match p
    case Detaching(i, work) => i in s.core.ordered && i in s.shut && WorkOk(s, work)
    case Calling(work) => WorkOk(s, work)
    case Marked => s.core.closed
    case Sweeping(todo) => WorkOk(s, Sweep(todo))
  }

  predicate InstancesOk(s: State) {
    && Listed(s.core)
    && (forall i <- s.shut :: i < |s.core.numOf|)
    && (forall i: Iid | i < |s.core.numOf| && i !in s.shut :: i in s.core.ordered)
  }

  predicate ThreadsOk(s: State) {
    && (forall t <- s.threads :: PcOk(s, s.threads[t]))
    && (forall t, u | t in s.threads && u in s.threads && t != u && s.threads[t].Detaching?
        && s.threads[u].Detaching? ::
          s.threads[t].i != s.threads[u].i)
  }

  predicate CallsOk(s: State) {
    s.fired + |Callers(s)| == if Departed(s.core) then 1 else 0
  }

  predicate Inv(s: State) {
    InstancesOk(s) && ThreadsOk(s) && CallsOk(s)
  }

  lemma InitInv()
    ensures Inv(INIT)
  {
    assert Callers(INIT) == {};
  }

  // Only thread t moves.
  ghost predicate OnlyMoves(s: State, s': State, t: Tid) {
    && (forall u: Tid :: u != t ==> (u in s.threads <==> u in s'.threads))
    && (forall u: Tid :: u != t && u in s.threads && u in s'.threads ==> s'.threads[u] == s.threads[u])
  }

  lemma CallersWith(s: State, s': State, t: Tid)
    requires OnlyMoves(s, s', t)
    ensures Callers(s') == Callers(s) - {t} + (if t in s'.threads && s'.threads[t].Calling? then {t} else {})
  {
  }

  // The instances neither come nor go, more of them are shut, and the session only closes.
  predicate Onward(s: State, s': State) {
    s'.core.numOf == s.core.numOf && s.shut <= s'.shut && (s.core.closed ==> s'.core.closed)
  }

  lemma PcStays(s: State, s': State, p: Pc)
    requires Onward(s, s') && PcOk(s, p)
    requires p.Detaching? ==> p.i in s'.core.ordered
    ensures PcOk(s', p)
  {
  }

  lemma AddInv(s: State)
    requires Inv(s) && Enabled(s, AddInstance)
    ensures Inv(Next(s, AddInstance))
  {
    var s' := Next(s, AddInstance);
    if Add(s.core).Joined? {
      AddListed(s.core);
      assert Callers(s') == Callers(s);
      forall t <- s.threads ensures PcOk(s', s.threads[t]) { assert PcOk(s, s.threads[t]); }
      forall i: Iid | i < |s'.core.numOf| && i !in s'.shut ensures i in s'.core.ordered {
        if i < |s.core.numOf| { assert i in s.core.ordered; }
      }
    }
  }

  // A step after which the core is the same or merely closed, and thread t goes on soundly.
  lemma MoveInv(s: State, s': State, t: Tid)
    requires Inv(s) && OnlyMoves(s, s', t) && Onward(s, s')
    requires s'.core == s.core.(closed := s'.core.closed)
    requires forall i <- s'.shut :: i < |s.core.numOf|
    requires t in s'.threads ==> PcOk(s', s'.threads[t])
    requires t in s'.threads && s'.threads[t].Detaching? ==> s'.threads[t].i !in s.shut
    requires s'.fired + |Callers(s')| == s.fired + |Callers(s)|
    ensures Inv(s')
  {
    forall u <- s'.threads ensures PcOk(s', s'.threads[u]) {
      if u != t { PcStays(s, s', s.threads[u]); }
    }
    forall u <- s.threads | s.threads[u].Detaching? ensures s.threads[u].i in s.shut { assert PcOk(s, s.threads[u]); }
  }

  lemma ResumeOk(s: State, t: Tid, work: Work)
    requires WorkOk(s, work)
    ensures var s' := Resume(s, t, work);
      && OnlyMoves(s, s', t) && s' == s.(threads := s'.threads)
      && (t in s'.threads ==> s'.threads[t].Sweeping? && PcOk(s', s'.threads[t]))
  {
  }

  lemma ResumeInv(s: State, t: Tid, work: Work)
    requires Inv(s) && t !in Callers(s) && WorkOk(s, work)
    ensures Inv(Resume(s, t, work))
  {
    var s' := Resume(s, t, work);
    ResumeOk(s, t, work);
    CallersWith(s, s', t);
    assert Callers(s') == Callers(s);
    MoveInv(s, s', t);
  }

  // An instance is shut: the thread goes on with its work, and nobody calls back.
  lemma ShutOnward(s: State, t: Tid, i: Iid, work: Work)
    requires Inv(s) && i < |s.core.numOf| && i !in s.shut && t !in Callers(s)
    requires WorkOk(s.(shut := s.shut + {i}), work)
    ensures var s' := Shut(s, t, i, work);
      && OnlyMoves(s, s', t) && Onward(s, s') && Callers(s') == Callers(s) && i in s.core.ordered
  {
    CallersWith(s, Shut(s, t, i, work), t);
  }

  lemma ShutInv(s: State, t: Tid, i: Iid, work: Work)
    requires Inv(s) && i < |s.core.numOf| && t !in Callers(s)
    requires WorkOk(s.(shut := s.shut + {i}), work)
    ensures Inv(Shut(s, t, i, work))
  {
    if i in s.shut {
      assert s.shut + {i} == s.shut;
      ResumeInv(s, t, work);
    } else {
      ShutOnward(s, t, i, work);
      MoveInv(s, Shut(s, t, i, work), t);
    }
  }

  // What a removal does to the threads.
  lemma RemoveEffect(s: State, t: Tid)
    requires Enabled(s, Remove(t))
    ensures var s', Detaching(i, work) := Next(s, Remove(t)), s.threads[t];
      && s'.core == Detach(s.core, i) && s'.shut == s.shut && s'.fired == s.fired && OnlyMoves(s, s', t)
      && (if s'.core.nums == map[] then t in s'.threads && s'.threads[t] == Calling(work)
          else t in s'.threads ==> work.Sweep? && s'.threads[t] == Sweeping(work.todo))
  {
  }

  lemma RemoveInstances(s: State, t: Tid)
    requires InstancesOk(s) && ThreadsOk(s) && Enabled(s, Remove(t))
    ensures InstancesOk(Next(s, Remove(t))) && s.threads[t].i in s.core.ordered
  {
    assert PcOk(s, s.threads[t]);
    RemoveEffect(s, t);
    DetachListed(s.core, s.threads[t].i);
  }

  lemma RemoveThreads(s: State, t: Tid)
    requires InstancesOk(s) && ThreadsOk(s) && Enabled(s, Remove(t)) && s.threads[t].i in s.core.ordered
    ensures ThreadsOk(Next(s, Remove(t)))
  {
    var s' := Next(s, Remove(t));
    RemoveEffect(s, t);
    DetachListed(s.core, s.threads[t].i);
    assert PcOk(s, s.threads[t]);
    var i := s.threads[t].i;
    forall u <- s'.threads ensures PcOk(s', s'.threads[u]) {
      if u != t {
        assert s.threads[u].Detaching? ==> s.threads[u].i != i;
        PcStays(s, s', s.threads[u]);
      }
    }
  }

  // The call is owed exactly from the removal that leaves no instance.
  lemma RemoveCalls(s: State, t: Tid)
    requires InstancesOk(s) && CallsOk(s) && Enabled(s, Remove(t)) && s.threads[t].i in s.core.ordered
    ensures CallsOk(Next(s, Remove(t)))
  {
    var s' := Next(s, Remove(t));
    RemoveEffect(s, t);
    DetachListed(s.core, s.threads[t].i);
    CallersWith(s, s', t);
    assert t !in Callers(s) && Callers(s) - {t} == Callers(s);
    assert !Departed(s.core) && Callers(s) == {};
    assert Departed(s'.core) <==> s'.core.nums == map[];
    assert Callers(s') == if s'.core.nums == map[] then {t} else {};
  }

  lemma CallbackInv(s: State, t: Tid)
    requires Inv(s) && Enabled(s, Callback(t))
    ensures Inv(Next(s, Callback(t)))
  {
    var s1 := s.(fired := s.fired + 1);
    var s' := Next(s, Callback(t));
    assert PcOk(s, s.threads[t]);
    ResumeOk(s1, t, s.threads[t].work);
    CallersWith(s, s', t);
    assert t in Callers(s) && Callers(s') == Callers(s) - {t};
    MoveInv(s, s', t);
  }

  lemma SnapshotCovers(s: State)
    requires InstancesOk(s) && s.core.closed
    ensures WorkOk(s, Sweep(s.core.nums.Values))
  {
    forall i: Iid | i < |s.core.numOf| && i !in s.shut ensures i in s.core.nums.Values {
      assert i in s.core.ordered && s.core.nums[s.core.numOf[i]] == i;
    }
  }

  lemma SnapshotInv(s: State, t: Tid)
    requires Inv(s) && Enabled(s, Snapshot(t))
    ensures Inv(Next(s, Snapshot(t)))
  {
    var s' := Next(s, Snapshot(t));
    assert PcOk(s, s.threads[t]);
    SnapshotCovers(s);
    CallersWith(s, s', t);
    assert Callers(s') == Callers(s);
    MoveInv(s, s', t);
  }

  lemma CloseSessionInv(s: State, t: Tid)
    requires Inv(s) && Enabled(s, CloseSession(t))
    ensures Inv(Next(s, CloseSession(t)))
  {
    var s' := Next(s, CloseSession(t));
    assert OnlyMoves(s, s', t) && Onward(s, s');
    CallersWith(s, s', t);
    assert Callers(s') == Callers(s);
    MoveInv(s, s', t);
  }

  lemma FinishInv(s: State, t: Tid)
    requires Inv(s) && Enabled(s, Finish(t))
    ensures Inv(Next(s, Finish(t)))
  {
    var s' := Next(s, Finish(t));
    assert OnlyMoves(s, s', t) && Onward(s, s');
    CallersWith(s, s', t);
    assert Callers(s') == Callers(s);
    MoveInv(s, s', t);
  }

  lemma RemoveInv(s: State, t: Tid)
    requires Inv(s) && Enabled(s, Remove(t))
    ensures Inv(Next(s, Remove(t)))
  {
    RemoveInstances(s, t);
    RemoveThreads(s, t);
    RemoveCalls(s, t);
  }

  lemma StepInv(s: State, a: Action)
    requires Inv(s) && Enabled(s, a)
    ensures Inv(Next(s, a))
  {
    match a
    case AddInstance => AddInv(s);
    case CloseInstance(t, i) => ShutInv(s, t, i, Single);
    case Remove(t) => RemoveInv(s, t);
    case Callback(t) => CallbackInv(s, t);
    case CloseNext(t, i) =>
      assert PcOk(s, s.threads[t]);
      ShutInv(s, t, i, Sweep(s.threads[t].todo - {i}));
    case Snapshot(t) => SnapshotInv(s, t);
    case CloseSession(t) => CloseSessionInv(s, t);
    case Finish(t) => FinishInv(s, t);
  }

  // ---- Runs ----

  // s' can be reached from s by a run of steps.
  predicate Runs(s: State, run: seq<Action>, s': State)
    decreases |run|
  {
    if run == [] then s == s'
    else Enabled(s, run[0]) && Runs(Next(s, run[0]), run[1..], s')
  }

  lemma {:induction false} RunInv(s: State, run: seq<Action>, s': State)
    requires Inv(s) && Runs(s, run, s')
    ensures Inv(s')
    decreases |run|
  {
    if run != [] {
      StepInv(s, run[0]);
      RunInv(Next(s, run[0]), run[1..], s');
    }
  }

  // The close callback fires at most once over every interleaving: it was called, or a thread is about to call it,
  // exactly when the last instance ever added is gone.
  lemma CallbackExactlyOnce(run: seq<Action>, s: State)
    requires Runs(INIT, run, s)
    ensures s.fired <= 1
    ensures s.fired + |Callers(s)| == if Departed(s.core) then 1 else 0
    ensures s.fired == 1 ==> Departed(s.core) && s.core.closed && s.core.nums == map[]
  {
    InitInv();
    RunInv(INIT, run, s);
    EmptyTogether(s.core);
  }

  // In every reachable state the list of instances has those of the map, once each and in order of addition, under
  // distinct numbers from 1 to 255.
  lemma ListingIsExact(run: seq<Action>, s: State)
    requires Runs(INIT, run, s)
    ensures Ascending(s.core.ordered)
    ensures forall i :: i in s.core.ordered <==> i in s.core.nums.Values
    ensures forall k, j | k in s.core.nums && j in s.core.nums && k != j :: s.core.nums[k] != s.core.nums[j]
    ensures forall k <- s.core.nums :: 1 <= k <= 255
  {
    InitInv();
    RunInv(INIT, run, s);
    forall i | i in s.core.ordered ensures i in s.core.nums.Values { assert s.core.nums[s.core.numOf[i]] == i; }
    forall k, j | k in s.core.nums && j in s.core.nums && s.core.nums[k] == s.core.nums[j] ensures k == j {
      assert s.core.numOf[s.core.nums[k]] == k && s.core.numOf[s.core.nums[j]] == j;
    }
  }

  // A closed session stays closed, and no instance is added to it.
  lemma {:induction false} ClosedForGood(s: State, run: seq<Action>, s': State)
    requires Runs(s, run, s') && s.core.closed
    ensures s'.core.closed && s'.core.numOf == s.core.numOf && s.shut <= s'.shut
    decreases |run|
  {
    if run != [] {
      assert Onward(s, Next(s, run[0]));
      ClosedForGood(Next(s, run[0]), run[1..], s');
    }
  }

  // When CloseSession has gone through its instances, every instance ever added is closed, and that stays so.
  lemma CloseSessionClosesAll(run: seq<Action>, s: State, t: Tid, later: seq<Action>, s': State)
    requires Runs(INIT, run, s) && Enabled(s, Finish(t)) && Runs(s, later, s')
    ensures s'.core.closed && forall i: Iid | i < |s'.core.numOf| :: i in s'.shut
  {
    InitInv();
    RunInv(INIT, run, s);
    assert PcOk(s, s.threads[t]);
    ClosedForGood(s, later, s');
  }

  // ---- What happens to an instance ----

  // An instance is marked closed when it is closed alone or by CloseSession, and in no other way.
  lemma ShutExactly(s: State, a: Action, i: Iid)
    requires Enabled(s, a)
    ensures i in Next(s, a).shut <==>
              i in s.shut || (a.CloseInstance? && a.i == i) || (a.CloseNext? && a.i == i)
  {
  }

  // A listed instance leaves the list when the thread that closed it removes it, and in no other way.
  lemma DetachedExactly(s: State, a: Action, i: Iid)
    requires Inv(s) && Enabled(s, a) && i in s.core.ordered
    ensures i !in Next(s, a).core.ordered <==> a.Remove? && s.threads[a.t].i == i
  {
    if a.Remove? { RemoveFirstAscending(s.core.ordered, s.threads[a.t].i); }
  }

  // The session closes by CloseSession or with its last instance, and in no other way.
  lemma ClosesExactly(s: State, a: Action)
    requires Inv(s) && Enabled(s, a) && !s.core.closed
    ensures Next(s, a).core.closed <==> a.CloseSession? || (a.Remove? && s.core.ordered == [s.threads[a.t].i])
  {
    if a.Remove? { LastOne(s, a.t); }
  }

  lemma LastOne(s: State, t: Tid)
    requires Inv(s) && Enabled(s, Remove(t))
    ensures Detach(s.core, s.threads[t].i).nums == map[] <==> s.core.ordered == [s.threads[t].i]
  {
    var i := s.threads[t].i;
    assert PcOk(s, s.threads[t]);
    DetachListed(s.core, i);
    EmptyTogether(Detach(s.core, i));
    RemoveFirstAscending(s.core.ordered, i);
    if Detach(s.core, i).ordered == [] { OnlyOne(s.core.ordered, i); }
  }

  lemma OnlyOne(list: seq<Iid>, i: Iid)
    requires i in list && RemoveFirst(list, i) == []
    ensures list == [i]
  {
    assert list == [list[0]] + list[1..];
  }

  // Each step of a thread in a call takes it on: to the snapshot, from one instance to the next, to the removal and the
  // callback, and out. No other thread is touched.
  lemma ThreadGoesOn(s: State, a: Action, u: Tid)
    requires Inv(s) && Enabled(s, a) && u in s.threads
    ensures !a.AddInstance? && a.t == u ==>
      match s.threads[u]
      case Detaching(i, w) =>
        (if s.core.ordered == [i] then u in Next(s, a).threads && Next(s, a).threads[u] == Calling(w)
         else After(s, a, u, w))
      case Calling(w) => Next(s, a).fired == s.fired + 1 && After(s, a, u, w)
      case Marked => u in Next(s, a).threads && Next(s, a).threads[u] == Sweeping(s.core.nums.Values)
      case Sweeping(todo) =>
        if a.Finish? then todo == {} && u !in Next(s, a).threads
        else a.CloseNext? && a.i in todo
             && if a.i in s.shut then After(s, a, u, Sweep(todo - {a.i}))
                else u in Next(s, a).threads && Next(s, a).threads[u] == Detaching(a.i, Sweep(todo - {a.i}))
    ensures a.AddInstance? || a.t != u ==> u in Next(s, a).threads && Next(s, a).threads[u] == s.threads[u]
  {
    if a.Remove? { LastOne(s, a.t); }
  }

  // A thread that is done with an instance returns, or goes on with the others.
  predicate After(s: State, a: Action, u: Tid, w: Work)
    requires Enabled(s, a)
  {
    match w
    case Single => u !in Next(s, a).threads
    case Sweep(todo) => u in Next(s, a).threads && Next(s, a).threads[u] == Sweeping(todo)
  }

  // Calls begin: the closing of an instance that is not closed yet leads to its removal, and that of a closed one has
  // nothing to do; CloseSession marks the session first.
  lemma CallBegins(s: State, t: Tid, i: Iid)
    requires Inv(s) && t !in s.threads && i < |s.core.numOf|
    ensures Enabled(s, CloseInstance(t, i)) && Enabled(s, CloseSession(t))
    ensures var s' := Next(s, CloseInstance(t, i));
      if i in s.shut then s' == s
      else s' == s.(shut := s.shut + {i}, threads := s.threads[t := Detaching(i, Single)])
    ensures Next(s, CloseSession(t))
         == s.(core := s.core.(closed := true), threads := s.threads[t := Marked])
  {
    assert s.threads - {t} == s.threads;
  }

  // The callback is called in the step of a thread that is about to call it, and in no other.
  lemma FiresExactly(s: State, a: Action)
    requires Enabled(s, a)
    ensures Next(s, a).fired == s.fired + if a.Callback? then 1 else 0
  {
  }
}
