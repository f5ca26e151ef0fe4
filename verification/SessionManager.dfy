/**
 The session manager as a state machine over every interleaving. Each critical section of AddSession, RemoveSession,
 CloseSession and CloseInstance is one step. The user lock of AddSession is the atomic lock that UserLocks refines: at
 most one thread a name is in the call.
 */
module SessionManager {
  import opened Common

  type Tid = nat
  type Sid = nat
  type Name = string

  const MAX_INSTANCES: nat := 5

  // A session together with its slot: the slot's signal and its multi-session flag.
  datatype Session = Session(name: Name, closed: bool, instances: nat, removed: bool, multi: bool)

  datatype Pc =
    | Locked
    | Looked(active: Option<Sid>)
    | Live(s: Sid)                   // found open by the tombstone check
    | Attaching(s: Sid)              // past the count check
    | Awaiting(s: Sid)               // on the slot's removed signal, or on cancellation
    | Creating

  datatype Call = Call(name: Name, multi: bool, pc: Pc)

  // Sessions are numbered as they are made; the store maps names to published sessions.
  datatype State = State(sessions: seq<Session>, store: map<Name, Sid>, calls: map<Tid, Call>)

  const INIT := State([], map[], map[])

  datatype Action =
    | Begin(t: Tid, name: Name, multi: bool)
    | LookUp(t: Tid)
    | CheckTombstone(t: Tid)
    | ClosePrevious(t: Tid)
    | CheckCount(t: Tid)
    | Attach(t: Tid)
    | Wake(t: Tid)
    | Cancel(t: Tid)
    | Publish(t: Tid)
    | CloseSession(s: Sid)
    | Depart(s: Sid)
    | Remove(s: Sid)

  // ---- The steps ----

  predicate Known(s: State, i: Sid) { i < |s.sessions| }

  predicate Enabled(s: State, a: Action) {
    match a
    case Begin(t, name, _) => t !in s.calls && forall u <- s.calls :: s.calls[u].name != name
    case LookUp(t) => t in s.calls && s.calls[t].pc.Locked?
    case CheckTombstone(t) =>
      t in s.calls && s.calls[t].pc.Looked? && (s.calls[t].pc.active.Some? ==> Known(s, s.calls[t].pc.active.value))
    case ClosePrevious(t) =>
      t in s.calls && s.calls[t].pc.Live? && Known(s, s.calls[t].pc.s)
      && !(s.calls[t].multi && s.sessions[s.calls[t].pc.s].multi)
    case CheckCount(t) =>
      t in s.calls && s.calls[t].pc.Live? && Known(s, s.calls[t].pc.s)
      && s.calls[t].multi && s.sessions[s.calls[t].pc.s].multi
    case Attach(t) => t in s.calls && s.calls[t].pc.Attaching? && Known(s, s.calls[t].pc.s)
    case Wake(t) =>
      t in s.calls && s.calls[t].pc.Awaiting? && Known(s, s.calls[t].pc.s) && s.sessions[s.calls[t].pc.s].removed
    case Cancel(t) => t in s.calls && s.calls[t].pc.Awaiting?
    case Publish(t) => t in s.calls && s.calls[t].pc.Creating?
    case CloseSession(i) => Known(s, i)
    case Depart(i) => Known(s, i) && s.sessions[i].instances > 0
    case Remove(i) => Known(s, i) && s.sessions[i].closed
  }

  function Goto(s: State, t: Tid, pc: Pc): State
    requires t in s.calls
  {
    s.(calls := s.calls[t := s.calls[t].(pc := pc)])
  }

  function Return(s: State, t: Tid): State {
    s.(calls := s.calls - {t})
  }

  function Closed(s: State, i: Sid): State
    requires Known(s, i)
  {
    s.(sessions := s.sessions[i := s.sessions[i].(closed := true)])
  }

  function Next(s: State, a: Action): State
    requires Enabled(s, a)
  {
    match a
    case Begin(t, name, multi) => s.(calls := s.calls[t := Call(name, multi, Locked)])
    case LookUp(t) =>
      var name := s.calls[t].name;
      Goto(s, t, Looked(if name in s.store then Some(s.store[name]) else None))
    case CheckTombstone(t) =>
      (match s.calls[t].pc.active
       case None => Goto(s, t, Creating)
       case Some(i) => Goto(s, t, if s.sessions[i].closed then Awaiting(i) else Live(i)))
    case ClosePrevious(t) =>
      // a multi-session sign-on replaces a single-session one without waiting for its teardown
      var i := s.calls[t].pc.s;
      Goto(Closed(s, i), t, if s.calls[t].multi then Creating else Awaiting(i))
    case CheckCount(t) =>
      var i := s.calls[t].pc.s;
      if s.sessions[i].instances >= MAX_INSTANCES then Return(s, t) else Goto(s, t, Attaching(i))
    case Attach(t) =>
      var i := s.calls[t].pc.s;
      var x := s.sessions[i];
      if x.closed then Goto(s, t, Awaiting(i))
      else Return(s.(sessions := s.sessions[i := x.(instances := x.instances + 1)]), t)
    case Wake(t) => Goto(s, t, Creating)
    case Cancel(t) => Return(s, t)
    case Publish(t) =>
      var Call(name, multi, _) := s.calls[t];
      Return(s.(sessions := s.sessions + [Session(name, false, 1, false, multi)],
                store := s.store[name := |s.sessions|]), t)
    case CloseSession(i) => Closed(s, i)
    case Depart(i) =>
      var x := s.sessions[i];
      s.(sessions := s.sessions[i := x.(instances := x.instances - 1, closed := x.closed || x.instances == 1)])
    case Remove(i) =>
      var x := s.sessions[i];
      if x.name in s.store && s.store[x.name] == i then
        s.(store := s.store - {x.name}, sessions := s.sessions[i := x.(removed := true)])
      else s
  }

  // ---- The invariant ----

  predicate InStore(s: State, i: Sid) {
    Known(s, i) && s.sessions[i].name in s.store && s.store[s.sessions[i].name] == i
  }

  predicate SessionOk(s: State, i: Sid)
    requires Known(s, i)
  {
    var x := s.sessions[i];
    && (!x.closed ==> InStore(s, i))
    && (x.removed ==> x.closed && !InStore(s, i))
    && (x.instances == 0 ==> x.closed)
    && x.instances <= MAX_INSTANCES
  }

  // The slot a call found is still the name's slot, or was signalled and nothing has taken its place.
  predicate Kept(s: State, name: Name, i: Sid) {
    Known(s, i) && s.sessions[i].name == name && (InStore(s, i) || (s.sessions[i].removed && name !in s.store))
  }

  predicate CallOk(s: State, c: Call) {
    match c.pc
    case Locked => true
    case Looked(None) => c.name !in s.store
    case Looked(Some(i)) => Kept(s, c.name, i)
    case Live(i) => Kept(s, c.name, i)
    case Attaching(i) => Kept(s, c.name, i) && s.sessions[i].instances < MAX_INSTANCES
    case Awaiting(i) => Kept(s, c.name, i) && s.sessions[i].closed
    case Creating =>
      c.name in s.store ==>
        var i := s.store[c.name];
        Known(s, i) && s.sessions[i].closed && c.multi && !s.sessions[i].multi
  }

  predicate Inv(s: State) {
    && (forall n <- s.store :: Known(s, s.store[n]) && s.sessions[s.store[n]].name == n)
    && (forall i :: 0 <= i < |s.sessions| ==> SessionOk(s, i))
    && (forall t, u | t in s.calls && u in s.calls && t != u :: s.calls[t].name != s.calls[u].name)
    && (forall t <- s.calls :: CallOk(s, s.calls[t]))
  }

  lemma InitInv()
    ensures Inv(INIT)
  {
  }

  // Every other call is where it was, and no two calls share a name.
  ghost predicate OthersStay(s: State, s': State, t: Tid) {
    && (forall u :: u != t ==> (u in s.calls <==> u in s'.calls))
    && (forall u :: u != t && u in s.calls && u in s'.calls ==> s'.calls[u] == s.calls[u])
    && (t in s'.calls ==> forall u :: u in s.calls && u != t ==> s.calls[u].name != s'.calls[t].name)
  }

  // A step that only moves one call on.
  lemma CallMoved(s: State, s': State, t: Tid)
    requires Inv(s) && s'.sessions == s.sessions && s'.store == s.store && OthersStay(s, s', t)
    requires t in s'.calls ==> CallOk(s, s'.calls[t])
    ensures Inv(s')
  {
    forall i | 0 <= i < |s'.sessions| ensures SessionOk(s', i) { assert SessionOk(s, i); }
    forall u <- s'.calls ensures CallOk(s', s'.calls[u]) { SameTables(s, s', s'.calls[u]); }
  }

  lemma SameTables(s: State, s': State, c: Call)
    requires s'.sessions == s.sessions && s'.store == s.store
    ensures CallOk(s', c) == CallOk(s, c)
  {
  }

  // A session that only changes its count, or closes.
  predicate Touched(s: State, s': State, i: Sid) {
    && Known(s, i) && s'.store == s.store
    && |s'.sessions| == |s.sessions| && s'.sessions == s.sessions[i := s'.sessions[i]]
    && s'.sessions[i] == s.sessions[i].(closed := s'.sessions[i].closed, instances := s'.sessions[i].instances)
    && (s.sessions[i].closed ==> s'.sessions[i].closed)
  }

  lemma TouchedSessions(s: State, s': State, i: Sid)
    requires Inv(s) && Touched(s, s', i) && s'.sessions[i].instances <= MAX_INSTANCES
    requires s'.sessions[i].instances == 0 ==> s'.sessions[i].closed
    ensures forall n <- s'.store :: Known(s', s'.store[n]) && s'.sessions[s'.store[n]].name == n
    ensures forall j :: 0 <= j < |s'.sessions| ==> SessionOk(s', j)
  {
    forall j | 0 <= j < |s'.sessions| ensures SessionOk(s', j) { assert SessionOk(s, j) && InStore(s, j)
        == InStore(s', j); }
  }

  lemma TouchedCall(s: State, s': State, i: Sid, c: Call)
    requires Touched(s, s', i) && CallOk(s, c)
    requires s'.sessions[i].instances <= s.sessions[i].instances || c.name != s.sessions[i].name
    ensures CallOk(s', c)
  {
    forall j | Known(s, j) ensures InStore(s', j) == InStore(s, j) {}
  }

  lemma EnvInv(s: State, s': State, i: Sid)
    requires Inv(s) && Touched(s, s', i) && s'.calls == s.calls
    requires s'.sessions[i].instances <= s.sessions[i].instances
    requires s'.sessions[i].instances == 0 ==> s'.sessions[i].closed
    ensures Inv(s')
  {
    assert SessionOk(s, i);
    TouchedSessions(s, s', i);
    forall u <- s'.calls ensures CallOk(s', s'.calls[u]) { TouchedCall(s, s', i, s.calls[u]); }
  }

  lemma ClosePreviousInv(s: State, t: Tid)
    requires Inv(s) && Enabled(s, ClosePrevious(t))
    ensures Inv(Next(s, ClosePrevious(t)))
  {
    var i := s.calls[t].pc.s;
    var s1 := Closed(s, i);
    assert CallOk(s, s.calls[t]) && SessionOk(s, i);
    EnvInv(s, s1, i);
    CallMoved(s1, Next(s, ClosePrevious(t)), t);
  }

  lemma AttachInv(s: State, t: Tid)
    requires Inv(s) && Enabled(s, Attach(t))
    ensures Inv(Next(s, Attach(t)))
  {
    var s', i := Next(s, Attach(t)), s.calls[t].pc.s;
    assert CallOk(s, s.calls[t]) && SessionOk(s, i);
    if s.sessions[i].closed {
      CallMoved(s, s', t);
    } else {
      TouchedSessions(s, s', i);
      forall u <- s'.calls ensures CallOk(s', s'.calls[u]) { TouchedCall(s, s', i, s.calls[u]); }
    }
  }

  lemma PublishSessions(s: State, t: Tid)
    requires Inv(s) && Enabled(s, Publish(t))
    ensures var s' := Next(s, Publish(t));
      && (forall n <- s'.store :: Known(s', s'.store[n]) && s'.sessions[s'.store[n]].name == n)
      && (forall j :: 0 <= j < |s'.sessions| ==> SessionOk(s', j))
  {
    var s', c := Next(s, Publish(t)), s.calls[t];
    assert CallOk(s, c);
    forall j | 0 <= j < |s.sessions| ensures SessionOk(s', j) {
      assert SessionOk(s, j);
      if InStore(s, j) && s.sessions[j].name == c.name { assert s.sessions[j].closed; }
    }
    assert SessionOk(s', |s.sessions|);
  }

  lemma PublishedCall(s: State, s': State, name: Name, x: Session, c: Call)
    requires s'.sessions == s.sessions + [x] && s'.store == s.store[name := |s.sessions|]
    requires CallOk(s, c) && c.name != name
    ensures CallOk(s', c)
  {
  }

  lemma PublishInv(s: State, t: Tid)
    requires Inv(s) && Enabled(s, Publish(t))
    ensures Inv(Next(s, Publish(t)))
  {
    var s', name := Next(s, Publish(t)), s.calls[t].name;
    PublishSessions(s, t);
    forall u <- s'.calls ensures CallOk(s', s'.calls[u]) {
      PublishedCall(s, s', name, s'.sessions[|s.sessions|], s.calls[u]);
    }
  }

  lemma RemoveInv(s: State, i: Sid)
    requires Inv(s) && Enabled(s, Remove(i))
    ensures Inv(Next(s, Remove(i)))
  {
    var s', name := Next(s, Remove(i)), s.sessions[i].name;
    if InStore(s, i) {
      forall j | 0 <= j < |s'.sessions| ensures SessionOk(s', j) {
        assert SessionOk(s, j);
        if s.sessions[j].name == name && j != i { assert !InStore(s, j); }
      }
      forall u <- s'.calls ensures CallOk(s', s'.calls[u]) { RemovedCall(s, i, s.calls[u]); }
    }
  }

  lemma RemovedCall(s: State, i: Sid, c: Call)
    requires Enabled(s, Remove(i)) && InStore(s, i) && CallOk(s, c)
    requires forall n <- s.store :: Known(s, s.store[n]) && s.sessions[s.store[n]].name == n
    ensures CallOk(Next(s, Remove(i)), c)
  {
  }

  // The steps that only look.
  lemma LookInv(s: State, a: Action)
    requires Inv(s) && Enabled(s, a) && (a.LookUp? || a.CheckTombstone? || a.CheckCount? || a.Wake?)
    ensures Inv(Next(s, a))
  {
    var c := s.calls[a.t];
    assert CallOk(s, c);
    if a.Wake? { assert SessionOk(s, c.pc.s); }
    CallMoved(s, Next(s, a), a.t);
  }

  // The steps of the sessions themselves.
  lemma DepartInv(s: State, a: Action)
    requires Inv(s) && Enabled(s, a) && (a.CloseSession? || a.Depart?)
    ensures Inv(Next(s, a))
  {
    assert SessionOk(s, a.s);
    EnvInv(s, Next(s, a), a.s);
  }

  lemma StepInv(s: State, a: Action)
    requires Inv(s) && Enabled(s, a)
    ensures Inv(Next(s, a))
  {
    match a
    case Begin(t, _, _) => CallMoved(s, Next(s, a), t);
    case Cancel(t) => CallMoved(s, Next(s, a), t);
    case ClosePrevious(t) => ClosePreviousInv(s, t);
    case Attach(t) => AttachInv(s, t);
    case Publish(t) => PublishInv(s, t);
    case Remove(i) => RemoveInv(s, i);
    case CloseSession(_) => DepartInv(s, a);
    case Depart(_) => DepartInv(s, a);
    case _ => LookInv(s, a);
  }

  // ---- Runs ----

  // s' can be reached from s by a run of steps.
  predicate Runs(s: State, run: seq<Action>, s': State)
    decreases |run|
  {
    if run == [] then s == s'
    else Enabled(s, run[0]) && Runs(Next(s, run[0]), run[1..], s')
  }

  lemma {:induction false} RunInv(s: State, run: seq<Action>, s': State)
    requires Inv(s) && Runs(s, run, s')
    ensures Inv(s')
    decreases |run|
  {
    if run != [] {
      StepInv(s, run[0]);
      RunInv(Next(s, run[0]), run[1..], s');
    }
  }

  // Over every interleaving, a name has at most one open session, and the store holds it.
  lemma AtMostOneOpen(run: seq<Action>, s: State)
    requires Runs(INIT, run, s)
    ensures forall i: Sid, j: Sid | Open(s, i) && Open(s, j) && s.sessions[i].name == s.sessions[j].name :: i == j
    ensures forall i: Sid | Open(s, i) :: InStore(s, i) && 1 <= s.sessions[i].instances
    ensures forall i: Sid | Known(s, i) :: s.sessions[i].instances <= MAX_INSTANCES
  {
    InitInv();
    RunInv(INIT, run, s);
    forall i: Sid | Known(s, i) ensures SessionOk(s, i) {}
  }

  predicate Open(s: State, i: Sid) { Known(s, i) && !s.sessions[i].closed }

  // A RemoveSession of a closed session takes out that session's own slot or nothing; in particular a stale one never
  // evicts the newer, open session of the name.
  lemma StaleRemoveEvictsNothing(run: seq<Action>, s: State, i: Sid)
    requires Runs(INIT, run, s) && Enabled(s, Remove(i))
    ensures var s' := Next(s, Remove(i));
      && (forall j: Sid :: j != i && InStore(s, j) ==> InStore(s', j))
      && (forall j: Sid | Open(s, j) :: InStore(s', j))
      && (!InStore(s, i) ==> s' == s)
  {
    InitInv();
    RunInv(INIT, run, s);
    forall j: Sid | Known(s, j) ensures SessionOk(s, j) {}
  }

  // No lost wake-up: a waiting call waits on a signal that was given, or on the slot of a closed session that is still
  // in the store, where RemoveSession will find it and give the signal.
  lemma NoLostWakeUp(run: seq<Action>, s: State, t: Tid)
    requires Runs(INIT, run, s) && t in s.calls && s.calls[t].pc.Awaiting?
    ensures Enabled(s, Wake(t))
         || (Enabled(s, Remove(s.calls[t].pc.s)) && Enabled(Next(s, Remove(s.calls[t].pc.s)), Wake(t)))
    ensures Enabled(s, Wake(t)) ==> s.calls[t].name !in s.store
  {
    InitInv();
    RunInv(INIT, run, s);
    assert CallOk(s, s.calls[t]) && SessionOk(s, s.calls[t].pc.s);
  }

  // Only the multi-session replacement of a single-session slot publishes over a slot that was not signalled. Such a
  // slot is never signalled afterwards, and no call ever waits on it.
  predicate Abandoned(s: State, i: Sid) {
    Known(s, i) && !InStore(s, i) && !s.sessions[i].removed
  }

  lemma AbandonedStep(s: State, a: Action, i: Sid)
    requires Inv(s) && Enabled(s, a) && Abandoned(s, i)
    ensures Abandoned(Next(s, a), i)
  {
    assert SessionOk(s, i);
    if a.Attach? { assert CallOk(s, s.calls[a.t]); }
  }

  lemma {:induction false} AbandonedForever(s: State, run: seq<Action>, s': State, i: Sid)
    requires Inv(s) && Runs(s, run, s') && Abandoned(s, i)
    ensures Abandoned(s', i) && forall t <- s'.calls :: s'.calls[t].pc != Awaiting(i)
    decreases |run|
  {
    if run == [] {
      forall t <- s'.calls ensures s'.calls[t].pc != Awaiting(i) { assert CallOk(s', s'.calls[t]); }
    } else {
      StepInv(s, run[0]);
      AbandonedStep(s, run[0], i);
      AbandonedForever(Next(s, run[0]), run[1..], s', i);
    }
  }

  // A slot becomes abandoned exactly when a sign-on publishes over it, which is then a multi-session one that closed
  // the single-session one.
  lemma AbandonedExactly(s: State, a: Action, i: Sid)
    requires Inv(s) && Enabled(s, a) && Known(s, i) && !Abandoned(s, i)
    ensures Abandoned(Next(s, a), i) <==> a.Publish? && InStore(s, i) && s.calls[a.t].name == s.sessions[i].name
    ensures Abandoned(Next(s, a), i) ==> s.sessions[i].closed && s.calls[a.t].multi && !s.sessions[i].multi
  {
    assert SessionOk(s, i);
    if a.Attach? { assert CallOk(s, s.calls[a.t]); }
    if a.Publish? { assert CallOk(s, s.calls[a.t]); }
  }

  // A single-session sign-on, and a multi-session one of the same name that closes and replaces it: the first slot is
  // abandoned.
  lemma ReplacementAbandons(name: Name)
    ensures var run := [Begin(0, name, false), LookUp(0), CheckTombstone(0), Publish(0),
                        Begin(1, name, true), LookUp(1), CheckTombstone(1), ClosePrevious(1), Publish(1)];
      exists s :: Runs(INIT, run, s) && Abandoned(s, 0)
  {
    var old0, new1 := Session(name, true, 1, false, false), Session(name, false, 1, false, true);
    FirstSignOn(name);
    SecondSignOn(name);
    var s := State([old0, new1], map[name := 1], map[]);
    RunsOn(INIT, [Begin(0, name, false), LookUp(0), CheckTombstone(0), Publish(0)], One(name),
           [Begin(1, name, true), LookUp(1), CheckTombstone(1), ClosePrevious(1), Publish(1)], s);
    assert [Begin(0, name, false), LookUp(0), CheckTombstone(0), Publish(0)]
           + [Begin(1, name, true), LookUp(1), CheckTombstone(1), ClosePrevious(1), Publish(1)]
        == [Begin(0, name, false), LookUp(0), CheckTombstone(0), Publish(0),
            Begin(1, name, true), LookUp(1), CheckTombstone(1), ClosePrevious(1), Publish(1)];
    assert Abandoned(s, 0);
  }

  // The store with one open single session.
  function One(name: Name): State { State([Session(name, false, 1, false, false)], map[name := 0], map[]) }

  lemma FirstSignOn(name: Name)
    ensures Runs(INIT, [Begin(0, name, false), LookUp(0), CheckTombstone(0), Publish(0)], One(name))
  {
    var s1 := Next(INIT, Begin(0, name, false));
    assert s1 == State([], map[], map[0 := Call(name, false, Locked)]);
    var s2 := Next(s1, LookUp(0));
    assert s2 == State([], map[], map[0 := Call(name, false, Looked(None))]);
    var s3 := Next(s2, CheckTombstone(0));
    assert s3 == State([], map[], map[0 := Call(name, false, Creating)]);
    assert Next(s3, Publish(0)) == One(name);
    Step(s3, Publish(0), [], One(name));
    Step(s2, CheckTombstone(0), [Publish(0)], One(name));
    Step(s1, LookUp(0), [CheckTombstone(0), Publish(0)], One(name));
    Step(INIT, Begin(0, name, false), [LookUp(0), CheckTombstone(0), Publish(0)], One(name));
  }

  lemma SecondSignOn(name: Name)
    ensures Runs(One(name), [Begin(1, name, true), LookUp(1), CheckTombstone(1), ClosePrevious(1), Publish(1)],
                 State([Session(name, true, 1, false, false), Session(name, false, 1, false, true)], map[name := 1],
                     map[]))
  {
    var open, shut := Session(name, false, 1, false, false), Session(name, true, 1, false, false);
    var end := State([shut, Session(name, false, 1, false, true)], map[name := 1], map[]);
    var s1 := Next(One(name), Begin(1, name, true));
    assert s1 == State([open], map[name := 0], map[1 := Call(name, true, Locked)]);
    var s2 := Next(s1, LookUp(1));
    assert s2 == State([open], map[name := 0], map[1 := Call(name, true, Looked(Some(0)))]);
    var s3 := Next(s2, CheckTombstone(1));
    assert s3 == State([open], map[name := 0], map[1 := Call(name, true, Live(0))]);
    var s4 := Next(s3, ClosePrevious(1));
    assert s4 == State([shut], map[name := 0], map[1 := Call(name, true, Creating)]);
    assert Next(s4, Publish(1)) == end;
    Step(s4, Publish(1), [], end);
    Step(s3, ClosePrevious(1), [Publish(1)], end);
    Step(s2, CheckTombstone(1), [ClosePrevious(1), Publish(1)], end);
    Step(s1, LookUp(1), [CheckTombstone(1), ClosePrevious(1), Publish(1)], end);
    Step(One(name), Begin(1, name, true), [LookUp(1), CheckTombstone(1), ClosePrevious(1), Publish(1)], end);
  }

  lemma Step(s: State, a: Action, rest: seq<Action>, s': State)
    requires Enabled(s, a) && Runs(Next(s, a), rest, s')
    ensures Runs(s, [a] + rest, s')
  {
    assert ([a] + rest)[1..] == rest;
  }

  lemma {:induction false} RunsOn(s: State, a: seq<Action>, mid: State, b: seq<Action>, s': State)
    requires Runs(s, a, mid) && Runs(mid, b, s')
    ensures Runs(s, a + b, s')
    decreases |a|
  {
    if a == [] {
      assert a + b == b;
    } else {
      assert (a + b)[1..] == a[1..] + b;
      RunsOn(Next(s, a[0]), a[1..], mid, b, s');
    }
  }

  // What a successful sign-on hands out: an instance of the one open session of its name, which the store holds.
  lemma SignOnSucceeds(run: seq<Action>, s: State, a: Action)
    requires Runs(INIT, run, s) && Enabled(s, a)
    requires a.Publish? || (a.Attach? && !s.sessions[s.calls[a.t].pc.s].closed)
    ensures var s', name := Next(s, a), s.calls[a.t].name;
      && a.t !in s'.calls
      && name in s'.store && Open(s', s'.store[name]) && s'.sessions[s'.store[name]].name == name
      && 1 <= s'.sessions[s'.store[name]].instances <= MAX_INSTANCES
  {
    InitInv();
    RunInv(INIT, run, s);
    StepInv(s, a);
    var s' := Next(s, a);
    assert CallOk(s, s.calls[a.t]);
    var i := if a.Publish? then |s.sessions| else s.calls[a.t].pc.s;
    if a.Attach? { assert SessionOk(s, i); }
    assert SessionOk(s', i);
  }

  // ---- How a call ends ----

  // A call ends in a sign-on, in a cancelled wait, or refused for too many instances: never in any other way.
  lemma CallEndsExactly(s: State, a: Action, t: Tid)
    requires Inv(s) && Enabled(s, a) && t in s.calls
    ensures t !in Next(s, a).calls <==>
              || a == Publish(t)
              || a == Cancel(t)
              || (a == Attach(t) && Open(s, s.calls[t].pc.s))
              || (a == CheckCount(t) && s.sessions[s.calls[t].pc.s].instances >= 5)
    ensures a == Cancel(t) || a == CheckCount(t) ==>
              Next(s, a).sessions == s.sessions && Next(s, a).store == s.store
  {
  }

  // The steps that a call has left at most.
  function Left(c: Call): nat {
    match c.pc
    case Locked => 6
    case Looked(_) => 5
    case Live(_) => 4
    case Attaching(_) => 3
    case Awaiting(_) => 2
    case Creating => 1
  }

  predicate Own(a: Action, t: Tid) { !a.CloseSession? && !a.Depart? && !a.Remove? && a.t == t }

  // Each step of a call brings it nearer to its end, and no other step touches it.
  lemma CallAdvances(s: State, a: Action, t: Tid)
    requires Enabled(s, a) && t in s.calls
    ensures Own(a, t) && t in Next(s, a).calls ==>
              Left(Next(s, a).calls[t]) < Left(s.calls[t])
              && Next(s, a).calls[t] == s.calls[t].(pc := Next(s, a).calls[t].pc)
    ensures !Own(a, t) ==> t in Next(s, a).calls && Next(s, a).calls[t] == s.calls[t]
  {
  }

  function OwnSteps(run: seq<Action>, t: Tid): nat {
    if run == [] then 0 else (if Own(run[0], t) then 1 else 0) + OwnSteps(run[1..], t)
  }

  // So over every interleaving a call makes at most six steps of its own before it has ended.
  lemma {:induction false} CallIsShort(s: State, run: seq<Action>, s': State, t: Tid)
    requires t in s.calls && Runs(s, run, s') && OwnSteps(run, t) >= Left(s.calls[t])
    ensures exists i :: 0 <= i <= |run| && EndedAfter(s, run[..i], t)
    decreases |run|
  {
    if run != [] {
      var s1 := Next(s, run[0]);
      CallAdvances(s, run[0], t);
      if t in s1.calls {
        CallIsShort(s1, run[1..], s', t);
        var i :| 0 <= i <= |run| - 1 && EndedAfter(s1, run[1..][..i], t);
        assert run[..i + 1][0] == run[0] && run[..i + 1][1..] == run[1..][..i];
        assert EndedAfter(s, run[..i + 1], t);
      } else {
        assert run[..1] == [run[0]] && [run[0]][1..] == [];
        assert EndedAfter(s, run[..1], t);
      }
    }
  }

  predicate EndedAfter(s: State, run: seq<Action>, t: Tid)
    decreases |run|
  {
    if run == [] then t !in s.calls else Enabled(s, run[0]) && EndedAfter(Next(s, run[0]), run[1..], t)
  }

  // A woken call signs on: it has nothing left to do but publish, and then the store has an open session of its name.
  lemma WokenSignsOn(run: seq<Action>, s: State, t: Tid)
    requires Runs(INIT, run, s) && Enabled(s, Wake(t))
    ensures var s1, name := Next(s, Wake(t)), s.calls[t].name;
      && Enabled(s1, Publish(t))
      && var s2 := Next(s1, Publish(t));
         name in s2.store && Open(s2, s2.store[name]) && s2.sessions[s2.store[name]].name == name
  {
    assert Next(s, Wake(t)).calls[t].pc == Creating;
  }

  // In every reachable state a call has one way on; only while it waits has it two, and then the wake-up needs the
  // signal. Of the two ways on from an open session, a multi-session sign-on to a multi-session has the one to join.
  lemma OneWayOn(s: State, a: Action, b: Action, t: Tid)
    requires Inv(s) && t in s.calls && Own(a, t) && Own(b, t) && Enabled(s, a) && Enabled(s, b)
    ensures a == b || s.calls[t].pc.Awaiting?
    ensures s.calls[t].pc.Awaiting? ==> a == Cancel(t) || (a == Wake(t) && s.sessions[s.calls[t].pc.s].removed)
    ensures s.calls[t].pc.Live? ==>
              (a == CheckCount(t) <==> s.calls[t].multi && s.sessions[s.calls[t].pc.s].multi)
  {
  }

  lemma SomeWayOn(s: State, t: Tid)
    requires Inv(s) && t in s.calls
    ensures exists a :: Own(a, t) && Enabled(s, a)
  {
    var c := s.calls[t];
    assert CallOk(s, c);
    match c.pc
    case Locked => assert Enabled(s, LookUp(t));
    case Looked(_) => assert Enabled(s, CheckTombstone(t));
    case Live(i) => assert Enabled(s, if c.multi && s.sessions[i].multi then CheckCount(t) else ClosePrevious(t));
    case Attaching(_) => assert Enabled(s, Attach(t));
    case Awaiting(_) => assert Enabled(s, Cancel(t));
    case Creating => assert Enabled(s, Publish(t));
  }

  // ---- Sign-ons one at a time ----

  // What a sign-on does that meets no other step but those given: for each case of AddSession, its steps and the state
  // after them.

  predicate Quiet(s: State, t: Tid, name: Name) {
    t !in s.calls && forall u <- s.calls :: s.calls[u].name != name
  }

  function With(s: State, t: Tid, c: Call): State { s.(calls := s.calls[t := c]) }

  lemma LooksUp(s: State, t: Tid, name: Name, multi: bool)
    requires Quiet(s, t, name) && (name in s.store ==> Known(s, s.store[name]))
    ensures var found := if name in s.store then Some(s.store[name]) else None;
      Runs(s, [Begin(t, name, multi), LookUp(t)], With(s, t, Call(name, multi, Looked(found))))
  {
    var found := if name in s.store then Some(s.store[name]) else None;
    var s1 := Next(s, Begin(t, name, multi));
    var s2 := With(s, t, Call(name, multi, Looked(found)));
    assert s1 == With(s, t, Call(name, multi, Locked));
    assert Next(s1, LookUp(t)).calls == s2.calls;
    Step(s1, LookUp(t), [], s2);
    Step(s, Begin(t, name, multi), [LookUp(t)], s2);
  }

  // The session that a sign-on without one makes.
  function Published(s: State, name: Name, multi: bool): State {
    s.(sessions := s.sessions + [Session(name, false, 1, false, multi)], store := s.store[name := |s.sessions|])
  }

  lemma Publishes(s: State, t: Tid, name: Name, multi: bool)
    requires t !in s.calls
    ensures Runs(With(s, t, Call(name, multi, Creating)), [Publish(t)], Published(s, name, multi))
  {
    var s1 := With(s, t, Call(name, multi, Creating));
    assert s1.calls - {t} == s.calls;
    Step(s1, Publish(t), [], Published(s, name, multi));
  }

  // The first sign-on of a name makes a session.
  lemma FirstAlone(s: State, t: Tid, name: Name, multi: bool)
    requires Quiet(s, t, name) && name !in s.store
    ensures Runs(s, [Begin(t, name, multi), LookUp(t), CheckTombstone(t), Publish(t)], Published(s, name, multi))
  {
    LooksUp(s, t, name, multi);
    var s2, s3 := With(s, t, Call(name, multi, Looked(None))), With(s, t, Call(name, multi, Creating));
    assert Next(s2, CheckTombstone(t)).calls == s3.calls;
    Publishes(s, t, name, multi);
    Step(s2, CheckTombstone(t), [Publish(t)], Published(s, name, multi));
    RunsOn(s, [Begin(t, name, multi), LookUp(t)], s2, [CheckTombstone(t)] + [Publish(t)], Published(s, name, multi));
    assert [Begin(t, name, multi), LookUp(t)] + ([CheckTombstone(t)] + [Publish(t)])
        == [Begin(t, name, multi), LookUp(t), CheckTombstone(t), Publish(t)];
  }

  // What the tombstone check does with the session it found.
  lemma ChecksTombstone(s: State, t: Tid, name: Name, multi: bool)
    requires Quiet(s, t, name) && name in s.store && Known(s, s.store[name])
    ensures var i := s.store[name];
      Runs(s, [Begin(t, name, multi), LookUp(t), CheckTombstone(t)],
           With(s, t, Call(name, multi, if s.sessions[i].closed then Awaiting(i) else Live(i))))
  {
    var i := s.store[name];
    var s2 := With(s, t, Call(name, multi, Looked(Some(i))));
    var s3 := With(s, t, Call(name, multi, if s.sessions[i].closed then Awaiting(i) else Live(i)));
    LooksUp(s, t, name, multi);
    assert Next(s2, CheckTombstone(t)).calls == s3.calls;
    Step(s2, CheckTombstone(t), [], s3);
    RunsOn(s, [Begin(t, name, multi), LookUp(t)], s2, [CheckTombstone(t)], s3);
    assert [Begin(t, name, multi), LookUp(t)] + [CheckTombstone(t)]
        == [Begin(t, name, multi), LookUp(t), CheckTombstone(t)];
  }

  // The slot of the name gone and its signal given.
  function Removed(s: State, i: Sid): State
    requires Known(s, i)
  {
    s.(store := s.store - {s.sessions[i].name}, sessions := s.sessions[i := s.sessions[i].(removed := true)])
  }

  // From a wait on a closed session: its removal, the wake-up and the new session.
  lemma WaitsAndSignsOn(s: State, t: Tid, name: Name, multi: bool, i: Sid)
    requires t !in s.calls && InStore(s, i) && s.sessions[i].name == name && s.sessions[i].closed
    ensures Runs(With(s, t, Call(name, multi, Awaiting(i))), [Remove(i), Wake(t), Publish(t)],
                 Published(Removed(s, i), name, multi))
  {
    var w := With(s, t, Call(name, multi, Awaiting(i)));
    var r := With(Removed(s, i), t, Call(name, multi, Awaiting(i)));
    var c := With(Removed(s, i), t, Call(name, multi, Creating));
    assert Next(w, Remove(i)) == r;
    assert Next(r, Wake(t)).calls == c.calls;
    Publishes(Removed(s, i), t, name, multi);
    Step(r, Wake(t), [Publish(t)], Published(Removed(s, i), name, multi));
    Step(w, Remove(i), [Wake(t)] + [Publish(t)], Published(Removed(s, i), name, multi));
    assert [Remove(i)] + ([Wake(t)] + [Publish(t)]) == [Remove(i), Wake(t), Publish(t)];
  }

  // A sign-on that finds a closed session waits until it is removed and then makes a session.
  lemma TombstoneAlone(s: State, t: Tid, name: Name, multi: bool)
    requires Inv(s) && Quiet(s, t, name) && name in s.store && s.sessions[s.store[name]].closed
    ensures var i := s.store[name];
      Runs(s, [Begin(t, name, multi), LookUp(t), CheckTombstone(t)] + [Remove(i), Wake(t), Publish(t)],
           Published(Removed(s, i), name, multi))
  {
    var i := s.store[name];
    ChecksTombstone(s, t, name, multi);
    WaitsAndSignsOn(s, t, name, multi, i);
    RunsOn(s, [Begin(t, name, multi), LookUp(t), CheckTombstone(t)], With(s, t, Call(name, multi, Awaiting(i))),
           [Remove(i), Wake(t), Publish(t)], Published(Removed(s, i), name, multi));
  }

  // A single-session sign-on closes the session it finds, waits until it is removed and then makes one.
  lemma SingleAlone(s: State, t: Tid, name: Name)
    requires Inv(s) && Quiet(s, t, name) && name in s.store && !s.sessions[s.store[name]].closed
    ensures var i := s.store[name];
      Runs(s, [Begin(t, name, false), LookUp(t), CheckTombstone(t)]
              + ([ClosePrevious(t)] + [Remove(i), Wake(t), Publish(t)]),
           Published(Removed(Closed(s, i), i), name, false))
  {
    var i := s.store[name];
    var l, w := With(s, t, Call(name, false, Live(i))), With(Closed(s, i), t, Call(name, false, Awaiting(i)));
    ChecksTombstone(s, t, name, false);
    assert Next(l, ClosePrevious(t)) == w;
    WaitsAndSignsOn(Closed(s, i), t, name, false, i);
    Step(l, ClosePrevious(t), [Remove(i), Wake(t), Publish(t)], Published(Removed(Closed(s, i), i), name, false));
    RunsOn(s, [Begin(t, name, false), LookUp(t), CheckTombstone(t)], l,
           [ClosePrevious(t)] + [Remove(i), Wake(t), Publish(t)], Published(Removed(Closed(s, i), i), name, false));
  }

  // A multi-session sign-on closes a single session that it finds and makes one at once.
  lemma ReplacingAlone(s: State, t: Tid, name: Name)
    requires Inv(s) && Quiet(s, t, name) && name in s.store
    requires !s.sessions[s.store[name]].closed && !s.sessions[s.store[name]].multi
    ensures Runs(s, [Begin(t, name, true), LookUp(t), CheckTombstone(t)] + ([ClosePrevious(t)] + [Publish(t)]),
                 Published(Closed(s, s.store[name]), name, true))
  {
    var i := s.store[name];
    var l, c := With(s, t, Call(name, true, Live(i))), With(Closed(s, i), t, Call(name, true, Creating));
    ChecksTombstone(s, t, name, true);
    assert Next(l, ClosePrevious(t)) == c;
    Publishes(Closed(s, i), t, name, true);
    Step(l, ClosePrevious(t), [Publish(t)], Published(Closed(s, i), name, true));
    RunsOn(s, [Begin(t, name, true), LookUp(t), CheckTombstone(t)], l, [ClosePrevious(t)] + [Publish(t)],
           Published(Closed(s, i), name, true));
  }

  // It joins a multi-session that it finds and that has fewer than five instances.
  lemma JoiningAlone(s: State, t: Tid, name: Name)
    requires Inv(s) && Quiet(s, t, name) && name in s.store
    requires var x := s.sessions[s.store[name]]; !x.closed && x.multi && x.instances < 5
    ensures var i := s.store[name];
      Runs(s, [Begin(t, name, true), LookUp(t), CheckTombstone(t)] + ([CheckCount(t)] + [Attach(t)]), Joined(s, i))
  {
    var i := s.store[name];
    var l := With(s, t, Call(name, true, Live(i)));
    ChecksTombstone(s, t, name, true);
    Joins(s, t, name, i);
    RunsOn(s, [Begin(t, name, true), LookUp(t), CheckTombstone(t)], l, [CheckCount(t)] + [Attach(t)], Joined(s, i));
  }

  lemma Joins(s: State, t: Tid, name: Name, i: Sid)
    requires t !in s.calls && Known(s, i) && !s.sessions[i].closed && s.sessions[i].multi && s.sessions[i].instances < 5
    ensures Runs(With(s, t, Call(name, true, Live(i))), [CheckCount(t)] + [Attach(t)], Joined(s, i))
  {
    var l, j := With(s, t, Call(name, true, Live(i))), With(s, t, Call(name, true, Attaching(i)));
    assert Next(l, CheckCount(t)) == j;
    assert Next(j, Attach(t)).calls == s.calls;
    Step(j, Attach(t), [], Joined(s, i));
    Step(l, CheckCount(t), [Attach(t)], Joined(s, i));
  }

  function Joined(s: State, i: Sid): State
    requires Known(s, i)
  {
    s.(sessions := s.sessions[i := s.sessions[i].(instances := s.sessions[i].instances + 1)])
  }

  // It is refused by one that has five, and nothing changes.
  lemma RefusedAlone(s: State, t: Tid, name: Name)
    requires Inv(s) && Quiet(s, t, name) && name in s.store
    requires var x := s.sessions[s.store[name]]; !x.closed && x.multi && x.instances >= 5
    ensures Runs(s, [Begin(t, name, true), LookUp(t), CheckTombstone(t)] + [CheckCount(t)], s)
  {
    var l := With(s, t, Call(name, true, Live(s.store[name])));
    ChecksTombstone(s, t, name, true);
    assert Next(l, CheckCount(t)).calls == s.calls;
    Step(l, CheckCount(t), [], s);
    RunsOn(s, [Begin(t, name, true), LookUp(t), CheckTombstone(t)], l, [CheckCount(t)], s);
  }

  // ---- What can happen to a session ----

  // An open session closes when it is told to, when a sign-on closes it, and with its last instance.
  lemma ClosesExactly(s: State, a: Action, i: Sid)
    requires Enabled(s, a) && Open(s, i)
    ensures !Open(Next(s, a), i) <==>
              || a == CloseSession(i)
              || (a == Depart(i) && s.sessions[i].instances == 1)
              || (a.ClosePrevious? && s.calls[a.t].pc == Live(i))
  {
  }

  // It gains an instance by an attach and loses one by a departure, and in no other way.
  lemma InstancesExactly(s: State, a: Action, i: Sid)
    requires Enabled(s, a) && Known(s, i)
    ensures Known(Next(s, a), i)
    ensures Next(s, a).sessions[i].instances
         == s.sessions[i].instances
            + (if a.Attach? && s.calls[a.t].pc == Attaching(i) && Open(s, i) then 1 else 0)
            - (if a == Depart(i) then 1 else 0)
  {
  }

  // Its slot leaves the store, and the signal is given, when it is removed; it also leaves the store, without a signal,
  // when a sign-on of the name publishes.
  lemma SlotExactly(s: State, a: Action, i: Sid)
    requires Inv(s) && Enabled(s, a) && InStore(s, i)
    ensures !InStore(Next(s, a), i) <==>
              a == Remove(i) || (a.Publish? && s.calls[a.t].name == s.sessions[i].name)
    ensures Next(s, a).sessions[i].removed <==> a == Remove(i)
  {
    assert SessionOk(s, i);
  }
}
