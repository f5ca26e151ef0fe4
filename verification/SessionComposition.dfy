/**
 How the three session protocols fit together: the manager's calls hold the user locks, and a session's counters stand
 for its instance table.
 */
module SessionComposition {
  import opened SessionCore
  import L = UserLocks
  import M = SessionManager
  import C = SessionLifecycle

  // ---- Calls under the user locks ----

  datatype Both = Both(locks: L.State, mgr: M.State)

  const INIT := Both(L.INIT, M.INIT)

  // A step of the locks, the start of AddSession by a thread that has its lock, or a step of the manager.
  datatype Step = Lock(lock: L.Action) | Start(t: nat, multi: bool) | Manage(action: M.Action)

  // A thread leaves its lock only after its call has returned. Nothing else ties the two together.
  predicate Enabled(s: Both, step: Step) {
    match step
    case Lock(a) => L.Enabled(s.locks, a) && (a.Leave? ==> a.t !in s.mgr.calls)
    case Start(t, _) => t in s.locks.threads && s.locks.threads[t].Holding? && t !in s.mgr.calls
    case Manage(a) => !a.Begin? && M.Enabled(s.mgr, a)
  }

  function Next(s: Both, step: Step): Both
    requires Enabled(s, step)
  {
    match step
    case Lock(a) => s.(locks := L.Next(s.locks, a))
    case Start(t, multi) =>
      s.(mgr := s.mgr.(calls := s.mgr.calls[t := M.Call(s.locks.threads[t].name, multi, M.Locked)]))
    case Manage(a) => s.(mgr := M.Next(s.mgr, a))
  }

  // Every call is made by a thread inside the lock of the call's name.
  predicate Inside(s: Both) {
    forall t <- s.mgr.calls ::
      t in s.locks.threads && s.locks.threads[t].Holding? && s.locks.threads[t].name == s.mgr.calls[t].name
  }

  ghost predicate Inv(s: Both) { L.Inv(s.locks) && Inside(s) }

  // What a step is to the manager alone.
  function Meaning(s: Both, step: Step): seq<M.Action>
    requires Enabled(s, step)
  {
    match step
    case Lock(_) => []
    case Start(t, multi) => [M.Begin(t, s.locks.threads[t].name, multi)]
    case Manage(a) => [a]
  }

  // No other call has the name of a thread that is inside its lock.
  lemma NameIsFree(s: Both, t: nat)
    requires Inv(s) && t in s.locks.threads && s.locks.threads[t].Holding? && t !in s.mgr.calls
    ensures forall u <- s.mgr.calls :: s.mgr.calls[u].name != s.locks.threads[t].name
  {
    forall u <- s.mgr.calls ensures s.mgr.calls[u].name != s.locks.threads[t].name {
      if s.mgr.calls[u].name == s.locks.threads[t].name {
        assert L.Owns(s.locks, t, s.locks.threads[t].name) && L.Owns(s.locks, u, s.locks.threads[t].name);
      }
    }
  }

  // The locks' own steps do not take a thread with a call out of its lock.
  lemma LockKeepsCalls(s: Both, a: L.Action)
    requires Inv(s) && Enabled(s, Lock(a))
    ensures Inside(Next(s, Lock(a)))
  {
  }

  lemma ManageKeepsCalls(s: Both, a: M.Action)
    requires Inside(s) && Enabled(s, Manage(a))
    ensures Inside(Next(s, Manage(a)))
  {
    forall t <- M.Next(s.mgr, a).calls
      ensures t in s.mgr.calls && M.Next(s.mgr, a).calls[t].name == s.mgr.calls[t].name {}
  }

  // Every step is one of the manager's steps or nothing to it: in particular the guard of Begin, that no other call has
  // the name, is what the user locks provide.
  lemma StepRefines(s: Both, step: Step)
    requires Inv(s) && Enabled(s, step)
    ensures Inv(Next(s, step))
    ensures M.Runs(s.mgr, Meaning(s, step), Next(s, step).mgr)
  {
    match step
    case Lock(a) =>
      L.StepInv(s.locks, a);
      LockKeepsCalls(s, a);
    case Start(t, multi) =>
      NameIsFree(s, t);
      assert Meaning(s, step)[1..] == [];
    case Manage(a) =>
      ManageKeepsCalls(s, a);
      assert Meaning(s, step)[1..] == [];
  }

  predicate Runs(s: Both, run: seq<Step>, s': Both)
    decreases |run|
  {
    if run == [] then s == s'
    else Enabled(s, run[0]) && Runs(Next(s, run[0]), run[1..], s')
  }

  // Every run of the locks and the manager together is a run of the manager, so what holds over all of its runs holds
  // here with the real locks in the place of its guard.
  lemma {:induction false} RunRefines(s: Both, run: seq<Step>, s': Both) returns (actions: seq<M.Action>)
    requires Inv(s) && Runs(s, run, s')
    ensures Inv(s') && M.Runs(s.mgr, actions, s'.mgr)
    decreases |run|
  {
    if run == [] {
      actions := [];
    } else {
      StepRefines(s, run[0]);
      var rest := RunRefines(Next(s, run[0]), run[1..], s');
      actions := Meaning(s, run[0]) + rest;
      M.RunsOn(s.mgr, Meaning(s, run[0]), Next(s, run[0]).mgr, rest, s'.mgr);
    }
  }

  // Under the real locks, too, a name has at most one open session, and the store has it.
  lemma AtMostOneOpen(run: seq<Step>, s: Both, i: M.Sid, j: M.Sid)
    requires Runs(INIT, run, s) && M.Open(s.mgr, i) && M.Open(s.mgr, j)
    requires s.mgr.sessions[i].name == s.mgr.sessions[j].name
    ensures i == j && M.InStore(s.mgr, i)
  {
    L.InitInv();
    var actions := RunRefines(INIT, run, s);
    M.AtMostOneOpen(actions, s.mgr);
  }

  // ---- A session's counters and its instance table ----

  // The session as the manager sees it: whether it is closed, and how many instances it has.
  function Counted(x: M.Session, c: Core): M.Session {
    x.(closed := c.closed, instances := |c.nums|)
  }

  lemma DetachCounts(c: Core, i: Iid)
    requires Listed(c) && i in c.ordered
    ensures |Detach(c, i).nums| == |c.nums| - 1 && |c.nums| > 0
    ensures Detach(c, i).closed == (c.closed || |c.nums| == 1)
  {
    assert Detach(c, i).nums.Keys == c.nums.Keys - {c.numOf[i]};
    assert |Detach(c, i).nums| == |Detach(c, i).nums.Keys| && |c.nums| == |c.nums.Keys|;
    assert Detach(c, i).nums == map[] <==> |Detach(c, i).nums| == 0;
  }

  lemma AddRefines(s: C.State, m: M.State, i: M.Sid)
    requires C.Inv(s) && C.Enabled(s, C.AddInstance) && M.Known(m, i) && m.sessions[i] == Counted(m.sessions[i], s.core)
    ensures var x, x' := m.sessions[i], Counted(m.sessions[i], C.Next(s, C.AddInstance).core);
      && x' == (if x.closed then x else x.(instances := x.instances + 1))
      && (forall t | M.Enabled(m, M.Attach(t)) && m.calls[t].pc.s == i :: M.Next(m, M.Attach(t)).sessions[i] == x')
  {
    if Add(s.core).Joined? { AddCounts(s.core); }
  }

  lemma AddCounts(c: Core)
    requires Listed(c) && Add(c).Joined?
    ensures !c.closed && !Add(c).core.closed && |Add(c).core.nums| == |c.nums| + 1
  {
    AddListed(c);
  }

  lemma RemoveRefines(s: C.State, t: nat, m: M.State, i: M.Sid)
    requires C.Inv(s) && C.Enabled(s, C.Remove(t)) && M.Known(m, i) && m.sessions[i] == Counted(m.sessions[i], s.core)
    ensures M.Enabled(m, M.Depart(i))
    ensures M.Next(m, M.Depart(i)).sessions[i] == Counted(m.sessions[i], C.Next(s, C.Remove(t)).core)
  {
    assert C.PcOk(s, s.threads[t]);
    C.RemoveEffect(s, t);
    DetachCounts(s.core, s.threads[t].i);
  }

  // Closing an instance, calling back and going through a session's instances leave the counters alone.
  lemma OthersKeepCore(s: C.State, a: C.Action)
    requires C.Enabled(s, a) && !a.AddInstance? && !a.Remove? && !a.CloseSession?
    ensures C.Next(s, a).core == s.core
  {
  }

  // The step of the manager, if any, that a step of one session is: a successful Attach, a departure, a close.
  lemma LifecycleRefines(s: C.State, a: C.Action, m: M.State, i: M.Sid)
    requires C.Inv(s) && C.Enabled(s, a) && M.Known(m, i) && m.sessions[i] == Counted(m.sessions[i], s.core)
    ensures var x, x' := m.sessions[i], Counted(m.sessions[i], C.Next(s, a).core);
      if a.AddInstance? then
        && x' == (if x.closed then x else x.(instances := x.instances + 1))
        && (forall t | M.Enabled(m, M.Attach(t)) && m.calls[t].pc.s == i :: M.Next(m, M.Attach(t)).sessions[i] == x')
      else if a.Remove? then M.Enabled(m, M.Depart(i)) && M.Next(m, M.Depart(i)).sessions[i] == x'
      else if a.CloseSession? then M.Enabled(m, M.CloseSession(i)) && M.Next(m, M.CloseSession(i)).sessions[i] == x'
      else x' == x
  {
    if a.AddInstance? {
      AddRefines(s, m, i);
    } else if a.Remove? {
      RemoveRefines(s, a.t, m, i);
    } else if !a.CloseSession? {
      OthersKeepCore(s, a);
    }
  }
}
