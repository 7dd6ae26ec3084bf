/** The mutex per key, as a system of interleaved steps.

    A session is one call of Lock or TryLock together with the one Unlock of what it returned.
    Any number of sessions run at once; each step is one access to shared memory, and the
    scheduler picks who moves. Pointers to entries are indices into `entries`, so an entry that
    was removed from the map and created again under the same key is a different one. */
module MapMutex {
  import opened Wrappers
  import P = EntryProtocol

  type Key = P.Key
  type Sid = P.Sid
  type Eid = P.Eid
  type Entry = P.Entry

  datatype Call = LockCall | TryLockCall

  /** The next statement of a session. */
  datatype Pc =
    | Start(call: Call)                 // m.ml.Lock()
    | Lookup(call: Call)                // read or create the entry
    | LockCount(e: Eid, created: bool)    // e.cnt++
    | LockLeave(e: Eid)                 // m.ml.Unlock()
    | LockWait(e: Eid)                  // e.el.Lock()
    | TryEl(e: Eid, created: bool)        // e.el.TryLock()
    | TryCount(e: Eid)                  // e.cnt++
    | TryLeave(e: Eid)                  // m.ml.Unlock(), then return e, true
    | TryFail                           // m.ml.Unlock(), then return nil, false
    | Critical(e: Eid)                  // the caller has the Unlocker
    | UnlockStart(e: Eid)               // m.ml.Lock()
    | UnlockLookup(e: Eid)              // e, ok := m.ma[me.key]
    | UnlockCount(e: Eid, found: Eid)   // found.cnt--
    | UnlockDelete(e: Eid, found: Eid)  // if found.cnt < 1 { delete }
    | UnlockLeave(e: Eid, found: Eid)   // m.ml.Unlock()
    | UnlockEl(e: Eid, found: Eid)      // found.el.Unlock()
    | Done(locked: bool)
    | Panicked

  datatype Session = Session(key: Key, pc: Pc)

  datatype State = State(
    ml: Option<Sid>,
    ma: map<Key, Eid>,
    entries: seq<Entry>,
    sessions: map<Sid, Session>)
  {
    function Pc(s: Sid): Pc
      requires s in sessions
    {
      sessions[s].pc
    }

    function Goto(s: Sid, pc: Pc): State
      requires s in sessions
    {
      this.(sessions := sessions[s := sessions[s].(pc := pc)])
    }

    function AddCount(e: Eid, d: int): State
      requires e < |entries|
    {
      this.(entries := entries[e := entries[e].(cnt := entries[e].cnt + d)])
    }

    function SetOwner(e: Eid, owner: Option<Sid>): State
      requires e < |entries|
    {
      this.(entries := entries[e := entries[e].(owner := owner)])
    }
  }

  const INIT := State(None, map[], [], map[])

  datatype Event = Begin(s: Sid, key: Key, call: Call) | Step(s: Sid)

  /** A step may block on a mutex; a finished session has none. */
  predicate Enabled(st: State, s: Sid)
  {
    s in st.sessions &&
    match st.Pc(s)
    case Start(_) => st.ml == None
    case UnlockStart(_) => st.ml == None
    case LockWait(e) => e < |st.entries| && st.entries[e].owner == None
    case LockCount(e, _) => e < |st.entries|
    case TryEl(e, _) => e < |st.entries|
    case TryCount(e) => e < |st.entries|
    case UnlockLookup(e) => e < |st.entries|
    case UnlockCount(e, f) => e < |st.entries| && f < |st.entries|
    case UnlockDelete(e, f) => e < |st.entries| && f < |st.entries|
    case UnlockEl(e, f) => f < |st.entries|
    case Done(_) => false
    case Panicked => false
    case _ => true
  }

  function Next(st: State, s: Sid): State
    requires Enabled(st, s)
  {
    var key := st.sessions[s].key;
    match st.Pc(s)
    case Start(call) => st.(ml := Some(s)).Goto(s, Lookup(call))
    case Lookup(call) =>
      var created := key !in st.ma;
      var e := if created then |st.entries| else st.ma[key];
      var st := if created then
          st.(ma := st.ma[key := e], entries := st.entries + [P.Entry(key, 0, None)])
        else st;
      st.Goto(s, if call.LockCall? then LockCount(e, created) else TryEl(e, created))
    case LockCount(e, _) => st.AddCount(e, 1).Goto(s, LockLeave(e))
    case LockLeave(e) => st.(ml := None).Goto(s, LockWait(e))
    case LockWait(e) => st.SetOwner(e, Some(s)).Goto(s, Critical(e))
    case TryEl(e, _) =>
      if st.entries[e].owner == None then st.SetOwner(e, Some(s)).Goto(s, TryCount(e))
      else st.Goto(s, TryFail)
    case TryCount(e) => st.AddCount(e, 1).Goto(s, TryLeave(e))
    case TryLeave(e) => st.(ml := None).Goto(s, Critical(e))
    case TryFail => st.(ml := None).Goto(s, Done(false))
    case Critical(e) => st.Goto(s, UnlockStart(e))
    case UnlockStart(e) => st.(ml := Some(s)).Goto(s, UnlockLookup(e))
    case UnlockLookup(e) =>
      var me := st.entries[e].key;
      if me !in st.ma then st.(ml := None).Goto(s, Panicked)
      else st.Goto(s, UnlockCount(e, st.ma[me]))
    case UnlockCount(e, f) => st.AddCount(f, -1).Goto(s, UnlockDelete(e, f))
    case UnlockDelete(e, f) =>
      (if st.entries[f].cnt < 1 then st.(ma := st.ma - {st.entries[e].key}) else st)
        .Goto(s, UnlockLeave(e, f))
    case UnlockLeave(e, f) => st.(ml := None).Goto(s, UnlockEl(e, f))
    case UnlockEl(e, f) => st.SetOwner(f, None).Goto(s, Done(true))
  }

  predicate Possible(st: State, ev: Event)
  {
    match ev
    case Begin(s, _, _) => s !in st.sessions
    case Step(s) => Enabled(st, s)
  }

  function Apply(st: State, ev: Event): State
    requires Possible(st, ev)
  {
    match ev
    case Begin(s, key, call) => st.(sessions := st.sessions[s := Session(key, Start(call))])
    case Step(s) => Next(st, s)
  }

  /** Where the run ends, if all of its events are possible. */
  function Run(run: seq<Event>): Option<State>
  {
    if run == [] then Some(INIT)
    else
      var prev := Run(run[..|run| - 1]);
      if prev.Some? && Possible(prev.value, run[|run| - 1])
      then Some(Apply(prev.value, run[|run| - 1])) else None
  }

  // ----- what the program counters mean to the protocol -----

  function ViewOf(session: Session): P.View
  {
    var key := session.key;
    match session.pc
    case Start(_) => P.View(key, false, None, false, false, false, P.NotLooking)
    case Lookup(_) => P.View(key, true, None, false, false, false, P.NotLooking)
    case LockCount(e, created) => P.View(key, true, Some(e), false, false, true, LookOf(created))
    case LockLeave(e) => P.View(key, true, Some(e), true, false, false, P.NotLooking)
    case LockWait(e) => P.View(key, false, Some(e), true, false, false, P.NotLooking)
    case TryEl(e, created) => P.View(key, true, Some(e), false, false, true, LookOf(created))
    case TryCount(e) => P.View(key, true, Some(e), false, true, true, P.NotLooking)
    case TryLeave(e) => P.View(key, true, Some(e), true, true, false, P.NotLooking)
    case TryFail => P.View(key, true, None, false, false, false, P.NotLooking)
    case Critical(e) => P.View(key, false, Some(e), true, true, false, P.NotLooking)
    case UnlockStart(e) => P.View(key, false, Some(e), true, true, false, P.NotLooking)
    case UnlockLookup(e) => P.View(key, true, Some(e), true, true, false, P.NotLooking)
    case UnlockCount(e, _) => P.View(key, true, Some(e), true, true, false, P.NotLooking)
    case UnlockDelete(e, _) => P.View(key, true, Some(e), false, true, true, P.NotLooking)
    case UnlockLeave(e, _) => P.View(key, true, Some(e), false, true, false, P.NotLooking)
    case UnlockEl(e, _) => P.View(key, false, Some(e), false, true, false, P.NotLooking)
    case Done(_) => P.View(key, false, None, false, false, false, P.NotLooking)
    case Panicked => P.View(key, false, None, false, false, false, P.NotLooking)
  }

  function LookOf(created: bool): P.Look
  {
    if created then P.Made else P.FoundOld
  }

  function Views(sessions: map<Sid, Session>): map<Sid, P.View>
  {
    map s | s in sessions :: ViewOf(sessions[s])
  }

  function Abs(st: State): P.State
  {
    P.State(st.ml, st.ma, st.entries, Views(st.sessions))
  }

  function ActionOf(st: State, s: Sid): P.Action
    requires Enabled(st, s)
  {
    match st.Pc(s)
    case Start(_) => P.TakeMl
    case Lookup(_) => if st.sessions[s].key in st.ma then P.Find else P.Make
    case LockCount(_, _) => P.Count
    case LockLeave(_) => P.LeaveMl
    case LockWait(_) => P.Own
    case TryEl(e, _) => if st.entries[e].owner == None then P.Own else P.GiveUp
    case TryCount(_) => P.Count
    case TryLeave(_) => P.LeaveMl
    case TryFail => P.LeaveMl
    case Critical(_) => P.Stay
    case UnlockStart(_) => P.TakeMl
    case UnlockLookup(_) => P.Stay
    case UnlockCount(_, _) => P.Uncount
    case UnlockDelete(_, _) => P.Settle
    case UnlockLeave(_, _) => P.LeaveMl
    case UnlockEl(_, _) => P.Disown
  }

  // ----- the invariant -----

  /** The entry that Unlock looked up is the one it was called on, and Unlock never panics. */
  predicate PcOk(pc: Pc)
  {
    match pc
    case UnlockCount(e, f) => f == e
    case UnlockDelete(e, f) => f == e
    case UnlockLeave(e, f) => f == e
    case UnlockEl(e, f) => f == e
    case Panicked => false
    case _ => true
  }

  ghost predicate Inv(st: State)
  {
    && P.Inv(Abs(st))
    && forall s :: s in st.sessions ==> PcOk(st.sessions[s].pc)
  }

  lemma ViewsUpdate(sessions: map<Sid, Session>, s: Sid, session: Session)
    ensures Views(sessions[s := session]) == Views(sessions)[s := ViewOf(session)]
  {
  }

  /** What a session's next step relies on. */
  predicate StepFacts(st: State, s: Sid)
    requires Enabled(st, s)
  {
    var pc := st.Pc(s);
    && PcOk(pc)
    && (ViewOf(st.sessions[s]).e.Some? ==>
          && ViewOf(st.sessions[s]).e.value < |st.entries|
          && st.entries[ViewOf(st.sessions[s]).e.value].key == st.sessions[s].key)
    && (pc.TryEl? && pc.created ==> st.entries[pc.e].owner == None)
    && (pc.UnlockLookup? ==>
          st.entries[pc.e].key in st.ma && st.ma[st.entries[pc.e].key] == pc.e)
  }

  /** An entry created in this section of the map's mutex is free, and Unlock finds the entry
      it was called on: its panic is unreachable. */
  lemma FactsHold(st: State, s: Sid)
    requires Inv(st) && Enabled(st, s)
    ensures StepFacts(st, s)
  {
    var a := Abs(st);
    assert a.views[s] == ViewOf(st.sessions[s]);
  }

  predicate InUnlock(pc: Pc)
  {
    || pc.Critical? || pc.UnlockStart? || pc.UnlockLookup? || pc.UnlockCount?
    || pc.UnlockDelete? || pc.UnlockLeave? || pc.UnlockEl?
  }

  lemma UnlockElSimulates(st: State, s: Sid)
    requires Enabled(st, s) && StepFacts(st, s) && st.Pc(s).UnlockEl?
    ensures P.Can(Abs(st), s, ActionOf(st, s))
    ensures Abs(Next(st, s)) == P.Do(Abs(st), s, ActionOf(st, s))
  {
    ViewsUpdate(st.sessions, s, Next(st, s).sessions[s]);
    assert Abs(st).views[s] == ViewOf(st.sessions[s]);
  }

  lemma UnlockCountSimulates(st: State, s: Sid)
    requires Enabled(st, s) && StepFacts(st, s) && st.Pc(s).UnlockCount?
    ensures P.Can(Abs(st), s, ActionOf(st, s))
    ensures Abs(Next(st, s)) == P.Do(Abs(st), s, ActionOf(st, s))
  {
    ViewsUpdate(st.sessions, s, Next(st, s).sessions[s]);
    assert Abs(st).views[s] == ViewOf(st.sessions[s]);
  }

  lemma UnlockDeleteSimulates(st: State, s: Sid)
    requires Enabled(st, s) && StepFacts(st, s) && st.Pc(s).UnlockDelete?
    ensures P.Can(Abs(st), s, ActionOf(st, s))
    ensures Abs(Next(st, s)) == P.Do(Abs(st), s, ActionOf(st, s))
  {
    ViewsUpdate(st.sessions, s, Next(st, s).sessions[s]);
    assert Abs(st).views[s] == ViewOf(st.sessions[s]);
  }

  lemma UnlockStepSimulates(st: State, s: Sid)
    requires Enabled(st, s) && StepFacts(st, s) && InUnlock(st.Pc(s))
    ensures P.Can(Abs(st), s, ActionOf(st, s))
    ensures Abs(Next(st, s)) == P.Do(Abs(st), s, ActionOf(st, s))
  {
    if st.Pc(s).UnlockCount? {
      UnlockCountSimulates(st, s);
    } else if st.Pc(s).UnlockDelete? {
      UnlockDeleteSimulates(st, s);
    } else if st.Pc(s).UnlockEl? {
      UnlockElSimulates(st, s);
    } else {
      ViewsUpdate(st.sessions, s, Next(st, s).sessions[s]);
      assert Abs(st).views[s] == ViewOf(st.sessions[s]);
    }
  }

  /** The counting and owning of an entry in Lock and TryLock. */
  predicate TakesEntry(pc: Pc)
  {
    pc.LockCount? || pc.LockWait? || pc.TryCount?
  }

  lemma TakeStepSimulates(st: State, s: Sid)
    requires Enabled(st, s) && StepFacts(st, s) && TakesEntry(st.Pc(s))
    ensures P.Can(Abs(st), s, ActionOf(st, s))
    ensures Abs(Next(st, s)) == P.Do(Abs(st), s, ActionOf(st, s))
  {
    ViewsUpdate(st.sessions, s, Next(st, s).sessions[s]);
    assert Abs(st).views[s] == ViewOf(st.sessions[s]);
  }

  lemma FindStepSimulates(st: State, s: Sid)
    requires Enabled(st, s) && StepFacts(st, s) && (st.Pc(s).Lookup? || st.Pc(s).TryEl?)
    ensures P.Can(Abs(st), s, ActionOf(st, s))
    ensures Abs(Next(st, s)) == P.Do(Abs(st), s, ActionOf(st, s))
  {
    ViewsUpdate(st.sessions, s, Next(st, s).sessions[s]);
    assert Abs(st).views[s] == ViewOf(st.sessions[s]);
  }

  lemma LockStepSimulates(st: State, s: Sid)
    requires Enabled(st, s) && StepFacts(st, s) && !InUnlock(st.Pc(s))
    ensures P.Can(Abs(st), s, ActionOf(st, s))
    ensures Abs(Next(st, s)) == P.Do(Abs(st), s, ActionOf(st, s))
  {
    if TakesEntry(st.Pc(s)) {
      TakeStepSimulates(st, s);
    } else if st.Pc(s).Lookup? || st.Pc(s).TryEl? {
      FindStepSimulates(st, s);
    } else {
      ViewsUpdate(st.sessions, s, Next(st, s).sessions[s]);
      assert Abs(st).views[s] == ViewOf(st.sessions[s]);
    }
  }

  lemma NextPcOk(st: State, s: Sid)
    requires Enabled(st, s) && StepFacts(st, s)
    ensures s in Next(st, s).sessions && PcOk(Next(st, s).Pc(s))
  {
  }

  /** Every step is an action of the protocol. */
  lemma StepSimulates(st: State, s: Sid)
    requires Enabled(st, s) && StepFacts(st, s)
    ensures P.Can(Abs(st), s, ActionOf(st, s))
    ensures Abs(Next(st, s)) == P.Do(Abs(st), s, ActionOf(st, s))
    ensures Next(st, s).sessions == st.sessions[s := Next(st, s).sessions[s]]
    ensures PcOk(Next(st, s).Pc(s))
  {
    OthersUntouched(st, s);
    NextPcOk(st, s);
    if InUnlock(st.Pc(s)) {
      UnlockStepSimulates(st, s);
    } else {
      LockStepSimulates(st, s);
    }
  }

  lemma StepInv(st: State, s: Sid)
    requires Inv(st) && Enabled(st, s)
    ensures Inv(Next(st, s))
  {
    FactsHold(st, s);
    StepSimulates(st, s);
    P.ActionInv(Abs(st), s, ActionOf(st, s));
  }

  lemma BeginInv(st: State, s: Sid, key: Key, call: Call)
    requires Inv(st) && s !in st.sessions
    ensures Inv(Apply(st, Begin(s, key, call)))
  {
    ViewsUpdate(st.sessions, s, Session(key, Start(call)));
    P.ActionInv(Abs(st), s, P.Arrive(key));
  }

  lemma ApplyInv(st: State, ev: Event)
    requires Inv(st) && Possible(st, ev)
    ensures Inv(Apply(st, ev))
  {
    match ev
    case Begin(s, key, call) => BeginInv(st, s, key, call);
    case Step(s) => StepInv(st, s);
  }

  lemma {:induction false} RunInv(run: seq<Event>)
    requires Run(run).Some?
    ensures Inv(Run(run).value)
  {
    if run == [] {
    } else {
      RunInv(run[..|run| - 1]);
      ApplyInv(Run(run[..|run| - 1]).value, run[|run| - 1]);
    }
  }

  // ----- what holds in every reachable state -----

  predicate InCritical(st: State, s: Sid, key: Key)
  {
    s in st.sessions && st.sessions[s].pc.Critical? && st.sessions[s].key == key
  }

  lemma SameKeySameEntry(st: State, s: Sid, t: Sid)
    requires P.MlInv(Abs(st)) && P.RefInv(Abs(st)) && P.UsersInMap(Abs(st))
    requires s in st.sessions && t in st.sessions
    requires st.sessions[s].key == st.sessions[t].key && st.sessions[s].pc.Critical?
    requires st.sessions[t].pc.Critical? || st.sessions[t].pc.TryEl?
    ensures st.sessions[s].pc.e == st.sessions[t].pc.e
  {
    var a := Abs(st);
    assert a.views[s] == ViewOf(st.sessions[s]) && a.views[t] == ViewOf(st.sessions[t]);
    P.SameEntry(a, s, t);
  }

  lemma SameEntryOneHolder(st: State, s: Sid, t: Sid)
    requires P.RefInv(Abs(st)) && P.OwnerInv(Abs(st))
    requires s in st.sessions && t in st.sessions
    requires st.sessions[s].pc.Critical? && st.sessions[s].pc == st.sessions[t].pc
    ensures s == t
  {
    var a := Abs(st);
    assert a.views[s] == ViewOf(st.sessions[s]) && a.views[t] == ViewOf(st.sessions[t]);
    P.OneOwner(a, s, t);
  }

  lemma OneHolder(st: State, s: Sid, t: Sid, key: Key)
    requires Inv(st) && InCritical(st, s, key) && InCritical(st, t, key)
    ensures s == t
  {
    SameKeySameEntry(st, s, t);
    SameEntryOneHolder(st, s, t);
  }

  /** At most one session per key is between a returned Lock or successful TryLock and its
      Unlock. */
  lemma MutualExclusion(run: seq<Event>, s: Sid, t: Sid, key: Key)
    requires Run(run).Some?
    requires InCritical(Run(run).value, s, key) && InCritical(Run(run).value, t, key)
    ensures s == t
  {
    RunInv(run);
    OneHolder(Run(run).value, s, t, key);
  }

  /** No interleaving makes Unlock panic. */
  lemma NeverPanics(run: seq<Event>, s: Sid)
    requires Run(run).Some? && s in Run(run).value.sessions
    ensures !Run(run).value.sessions[s].pc.Panicked?
  {
    RunInv(run);
  }

  /** Waiting for the entry's own mutex, or holding it and not yet releasing it. */
  predicate Uses(pc: Pc, e: Eid)
  {
    (pc.LockWait? || pc.Critical? || pc.UnlockStart?) && pc.e == e
  }

  function Users(st: State, e: Eid): set<Sid>
  {
    set s | s in st.sessions && Uses(st.sessions[s].pc, e)
  }

  lemma CountedIsUsers(st: State, e: Eid)
    requires P.MlInv(Abs(st)) && st.ml == None
    ensures Users(st, e) == P.Counted(Abs(st).views, e)
  {
    var a := Abs(st);
    forall s | s in st.sessions
      ensures Uses(st.sessions[s].pc, e) <==> a.views[s].counted && a.views[s].On(e)
    {
      assert a.views[s] == ViewOf(st.sessions[s]) && !a.views[s].ml;
    }
  }

  /** Whenever the map's mutex is free, an entry's count is the number of sessions that wait
      for it or hold it, and exactly the entries with such sessions are in the map. */
  lemma CountIsUsers(run: seq<Event>, e: Eid)
    requires Run(run).Some? && Run(run).value.ml == None && e < |Run(run).value.entries|
    ensures var st := Run(run).value;
      && st.entries[e].cnt == |Users(st, e)|
      && (P.InMap(Abs(st), e) <==> Users(st, e) != {})
  {
    RunInv(run);
    var st := Run(run).value;
    var a := Abs(st);
    CountedIsUsers(st, e);
    if s :| s in Users(st, e) {
      assert a.views[s].counted && a.views[s].On(e);
    }
  }

  predicate Finished(pc: Pc)
  {
    pc.Done? || pc.Panicked?
  }

  lemma MlHolderUnfinished(run: seq<Event>)
    requires Run(run).Some? && Run(run).value.ml.Some?
    ensures var st := Run(run).value;
      st.ml.value in st.sessions && !Finished(st.sessions[st.ml.value].pc)
  {
    RunInv(run);
    var a := Abs(Run(run).value);
    assert a.views[a.ml.value].ml;
  }

  lemma KeyHasUser(run: seq<Event>, key: Key)
    requires Run(run).Some? && Run(run).value.ml == None && key in Run(run).value.ma
    ensures var st := Run(run).value; exists s :: s in st.sessions && !Finished(st.sessions[s].pc)
  {
    RunInv(run);
    var st := Run(run).value;
    assert P.InMap(Abs(st), st.ma[key]);
    CountIsUsers(run, st.ma[key]);
    var s :| s in Users(st, st.ma[key]);
  }

  /** Nothing is left behind: when all sessions have finished the map is empty. */
  lemma EmptyAtEnd(run: seq<Event>)
    requires Run(run).Some?
    requires forall s :: s in Run(run).value.sessions ==> Finished(Run(run).value.sessions[s].pc)
    ensures Run(run).value.ma == map[] && Run(run).value.ml == None
  {
    if Run(run).value.ml.Some? {
      MlHolderUnfinished(run);
    }
    if key :| key in Run(run).value.ma {
      KeyHasUser(run, key);
    }
  }

  /** While a session is in its critical section, TryLock on the same key fails. */
  lemma TryLockRefused(run: seq<Event>, s: Sid, t: Sid, key: Key)
    requires Run(run).Some? && InCritical(Run(run).value, s, key)
    requires t in Run(run).value.sessions && Run(run).value.sessions[t].key == key
    requires Run(run).value.sessions[t].pc.TryEl? && Enabled(Run(run).value, t)
    ensures Next(Run(run).value, t).sessions[t].pc == TryFail
  {
    RunInv(run);
    SameKeySameEntry(Run(run).value, s, t);
    assert Abs(Run(run).value).views[s].owns;
  }

  /** TryLock fails for no other reason than that some session holds the entry's mutex, on its
      way from a successful Lock to the end of its Unlock. */
  lemma TryLockFailsForCause(run: seq<Event>, t: Sid)
    requires Run(run).Some? && Enabled(Run(run).value, t) && Run(run).value.Pc(t).TryEl?
    requires Next(Run(run).value, t).sessions[t].pc == TryFail
    ensures var st := Run(run).value;
      exists s :: s in st.sessions && InUnlock(st.sessions[s].pc)
               && st.sessions[s].pc.e == st.Pc(t).e && st.sessions[s].key == st.sessions[t].key
  {
    RunInv(run);
    var st := Run(run).value;
    OwnerInside(st, t, st.entries[st.Pc(t).e].owner.value);
  }

  lemma OwnerInside(st: State, t: Sid, s: Sid)
    requires P.MlInv(Abs(st)) && P.RefInv(Abs(st)) && P.OwnerInv(Abs(st))
    requires t in st.sessions && st.sessions[t].pc.TryEl?
    requires st.sessions[t].pc.e < |st.entries| && st.entries[st.sessions[t].pc.e].owner == Some(s)
    ensures s in st.sessions && InUnlock(st.sessions[s].pc)
    ensures st.sessions[s].pc.e == st.sessions[t].pc.e && st.sessions[s].key == st.sessions[t].key
  {
    var a := Abs(st);
    assert a.views[s].owns && a.views[s].On(st.sessions[t].pc.e) && a.views[t].unsettled;
    assert a.views[t] == ViewOf(st.sessions[t]) && a.views[s] == ViewOf(st.sessions[s]);
    assert !st.sessions[s].pc.TryCount? && !st.sessions[s].pc.TryLeave?;
  }

  // ----- progress -----

  /** Whoever holds the map's mutex can go on: no step inside that section blocks. */
  lemma MlHolderEnabled(st: State)
    requires Inv(st) && st.ml.Some?
    ensures Enabled(st, st.ml.value)
  {
    var s := st.ml.value;
    assert Abs(st).views[s] == ViewOf(st.sessions[s]);
    assert PcOk(st.sessions[s].pc);
    if st.sessions[s].pc.UnlockDelete? {
      assert Abs(st).views[s].e.Some?;
    }
  }

  /** Once in Unlock, a session waits for nothing but the map's mutex. */
  lemma UnlockEnabled(st: State, s: Sid)
    requires Inv(st) && s in st.sessions && InUnlock(st.sessions[s].pc)
    requires st.sessions[s].pc.UnlockStart? ==> st.ml == None
    ensures Enabled(st, s)
  {
    assert Abs(st).views[s] == ViewOf(st.sessions[s]) && PcOk(st.sessions[s].pc);
    if Abs(st).views[s].ml {
      MlHolderEnabled(st);
    }
  }

  /** If no client sits in a critical section and somebody has not finished, some session that
      has not finished can take a step. */
  lemma NoDeadlock(run: seq<Event>, s: Sid)
    requires Run(run).Some? && s in Run(run).value.sessions
    requires !Finished(Run(run).value.sessions[s].pc)
    requires forall t, key :: !InCritical(Run(run).value, t, key)
    ensures exists t :: Enabled(Run(run).value, t)
  {
    RunInv(run);
    var st := Run(run).value;
    var a := Abs(st);
    if st.ml.Some? {
      MlHolderEnabled(st);
    } else if !Enabled(st, s) {
      assert a.views[s] == ViewOf(st.sessions[s]) && !a.views[s].ml;
      var pc := st.sessions[s].pc;
      if pc.LockWait? {
        var t := st.entries[pc.e].owner.value;
        assert a.views[t].owns && a.views[t] == ViewOf(st.sessions[t]);
        assert !InCritical(st, t, st.sessions[t].key);
        assert Enabled(st, t);
      } else {
        assert false;
      }
    }
  }

  /** How many steps a session still has to take, at most. */
  function Remaining(pc: Pc): nat
  {
    match pc
    case Start(_) => 12
    case Lookup(_) => 11
    case LockCount(_, _) => 10
    case LockLeave(_) => 9
    case LockWait(_) => 8
    case TryEl(_, _) => 10
    case TryCount(_) => 9
    case TryLeave(_) => 8
    case TryFail => 8
    case Critical(_) => 7
    case UnlockStart(_) => 6
    case UnlockLookup(_) => 5
    case UnlockCount(_, _) => 4
    case UnlockDelete(_, _) => 3
    case UnlockLeave(_, _) => 2
    case UnlockEl(_, _) => 1
    case Done(_) => 0
    case Panicked => 0
  }

  /** A step moves its own session and nobody else's. */
  lemma OthersUntouched(st: State, s: Sid)
    requires Enabled(st, s)
    ensures s in Next(st, s).sessions && Next(st, s).sessions == st.sessions[s := Next(st, s).sessions[s]]
  {
  }

  lemma UnlockStepsRunOut(st: State, s: Sid)
    requires Enabled(st, s) && InUnlock(st.Pc(s))
    ensures Remaining(Next(st, s).sessions[s].pc) < Remaining(st.sessions[s].pc)
  {
  }

  /** Nobody spins: each step brings its own session closer to its end and leaves the program
      counters of all others alone. */
  lemma StepsRunOut(st: State, s: Sid)
    requires Enabled(st, s)
    ensures Next(st, s).sessions.Keys == st.sessions.Keys
    ensures Remaining(Next(st, s).sessions[s].pc) < Remaining(st.sessions[s].pc)
    ensures forall t :: t in st.sessions && t != s ==> Next(st, s).sessions[t] == st.sessions[t]
  {
    OthersUntouched(st, s);
    if InUnlock(st.Pc(s)) {
      UnlockStepsRunOut(st, s);
    }
  }

  /** A session enters its critical section from Lock or TryLock, keeps its key, and leaves for
      good. */
  lemma OnlyLockEnters(st: State, s: Sid)
    requires Enabled(st, s)
    ensures Next(st, s).sessions[s].key == st.sessions[s].key
    ensures Next(st, s).sessions[s].pc.Critical? ==> st.Pc(s).LockWait? || st.Pc(s).TryLeave?
    ensures st.Pc(s).Critical? ==> Next(st, s).sessions[s].pc.UnlockStart?
  {
  }

  // ----- what a call comes to -----

  /** The lock was handed to the caller, now or earlier in the run. */
  predicate WasCritical(run: seq<Event>, s: Sid)
  {
    || (Run(run).Some? && s in Run(run).value.sessions && Run(run).value.sessions[s].pc.Critical?)
    || (run != [] && WasCritical(run[..|run| - 1], s))
  }

  predicate Past(pc: Pc)
  {
    InUnlock(pc) || pc == Done(true)
  }

  lemma PastStep(st: State, s: Sid)
    requires Enabled(st, s) && PcOk(Next(st, s).sessions[s].pc)
    ensures Past(st.sessions[s].pc) ==> Past(Next(st, s).sessions[s].pc)
    ensures Past(Next(st, s).sessions[s].pc) ==>
      Past(st.sessions[s].pc) || Next(st, s).sessions[s].pc.Critical?
  {
  }

  /** A session is in Unlock, or has finished with success, exactly when its caller has had the
      lock. */
  lemma {:induction false} HandedOver(run: seq<Event>, s: Sid)
    requires Run(run).Some? && s in Run(run).value.sessions
    ensures Past(Run(run).value.sessions[s].pc) <==> WasCritical(run, s)
  {
    var front, ev := run[..|run| - 1], run[|run| - 1];
    var prev := Run(front).value;
    RunInv(run);
    if ev.Step? {
      OthersUntouched(prev, ev.s);
    }
    if s in prev.sessions {
      HandedOver(front, s);
      if ev == Step(s) {
        PastStep(prev, s);
      }
    } else {
      NotBegun(front, s);
    }
  }

  lemma {:induction false} NotBegun(run: seq<Event>, s: Sid)
    requires Run(run).Some? && s !in Run(run).value.sessions
    ensures !WasCritical(run, s) && CallOf(run, s) == None
  {
    if run == [] {
    } else {
      var front, ev := run[..|run| - 1], run[|run| - 1];
      if ev.Step? {
        OthersUntouched(Run(front).value, ev.s);
      }
      NotBegun(front, s);
    }
  }

  /** What the session was begun with. */
  function CallOf(run: seq<Event>, s: Sid): Option<Call>
  {
    if run == [] then None
    else
      var ev := run[|run| - 1];
      if ev.Begin? && ev.s == s then Some(ev.call) else CallOf(run[..|run| - 1], s)
  }

  /** Lock waits and always succeeds, TryLock never waits. */
  predicate OnPath(call: Call, pc: Pc)
  {
    match pc
    case Start(c) => c == call
    case Lookup(c) => c == call
    case LockCount(_, _) => call.LockCall?
    case LockLeave(_) => call.LockCall?
    case LockWait(_) => call.LockCall?
    case TryEl(_, _) => call.TryLockCall?
    case TryCount(_) => call.TryLockCall?
    case TryLeave(_) => call.TryLockCall?
    case TryFail => call.TryLockCall?
    case Done(locked) => locked || call.TryLockCall?
    case _ => true
  }

  lemma PathStep(st: State, s: Sid, call: Call)
    requires Enabled(st, s) && OnPath(call, st.sessions[s].pc)
    ensures OnPath(call, Next(st, s).sessions[s].pc)
  {
  }

  lemma {:induction false} FollowsCall(run: seq<Event>, s: Sid)
    requires Run(run).Some? && s in Run(run).value.sessions
    ensures CallOf(run, s).Some? && OnPath(CallOf(run, s).value, Run(run).value.sessions[s].pc)
  {
    var front, ev := run[..|run| - 1], run[|run| - 1];
    var prev := Run(front).value;
    if ev.Step? {
      OthersUntouched(prev, ev.s);
    }
    if s in prev.sessions {
      FollowsCall(front, s);
      if ev == Step(s) {
        PathStep(prev, s, CallOf(front, s).value);
      }
    }
  }

  /** So a finished Lock has handed its lock over, and a finished TryLock returned true exactly if
      it has. */
  lemma FinishedCall(run: seq<Event>, s: Sid)
    requires Run(run).Some? && s in Run(run).value.sessions && Run(run).value.sessions[s].pc.Done?
    ensures CallOf(run, s).Some?
    ensures Run(run).value.sessions[s].pc.locked <==> WasCritical(run, s)
    ensures CallOf(run, s).value.LockCall? ==> WasCritical(run, s)
  {
    HandedOver(run, s);
    FollowsCall(run, s);
  }

  lemma RunSnoc(run: seq<Event>, ev: Event, st: State)
    requires Run(run) == Some(st) && Possible(st, ev)
    ensures Run(run + [ev]) == Some(Apply(st, ev))
  {
    assert (run + [ev])[..|run|] == run;
  }

  /** A TryLock with nobody else about. */
  function TryRun(s: Sid, key: Key): seq<Event>
  {
    [Begin(s, key, TryLockCall), Step(s), Step(s), Step(s), Step(s), Step(s)]
  }

  /** One session at `pc`, with the entry that it made. */
  function Alone(s: Sid, key: Key, pc: Pc, ml: bool, cnt: int, owner: Option<Sid>): State
  {
    State(if ml then Some(s) else None, map[key := 0], [P.Entry.Entry(key, cnt, owner)], map[s := Session(key, pc)])
  }

  lemma TryStep(run: seq<Event>, s: Sid, st: State, st': State)
    requires Run(run) == Some(st) && Enabled(st, s) && Next(st, s) == st'
    ensures Run(run + [Step(s)]) == Some(st')
  {
    RunSnoc(run, Step(s), st);
  }

  lemma TryFindsNothing(s: Sid, key: Key)
    ensures Run(TryRun(s, key)[..3]) == Some(Alone(s, key, TryEl(0, true), true, 0, None))
  {
    var r := TryRun(s, key);
    var begun := State(None, map[], [], map[s := Session(key, Start(TryLockCall))]);
    var looking := State(Some(s), map[], [], map[s := Session(key, Lookup(TryLockCall))]);
    assert r[..1] == r[..0] + [r[0]] && r[..2] == r[..1] + [r[1]] && r[..3] == r[..2] + [r[2]];
    RunSnoc(r[..0], r[0], INIT);
    TryStep(r[..1], s, begun, looking);
    TryStep(r[..2], s, looking, Alone(s, key, TryEl(0, true), true, 0, None));
  }

  lemma TryOwns(s: Sid, key: Key)
    ensures Run(TryRun(s, key)[..4]) == Some(Alone(s, key, TryCount(0), true, 0, Some(s)))
  {
    var r := TryRun(s, key);
    TryFindsNothing(s, key);
    assert r[..4] == r[..3] + [r[3]];
    TryStep(r[..3], s, Alone(s, key, TryEl(0, true), true, 0, None), Alone(s, key, TryCount(0), true, 0, Some(s)));
  }

  lemma TryCounts(s: Sid, key: Key)
    ensures Run(TryRun(s, key)[..5]) == Some(Alone(s, key, TryLeave(0), true, 1, Some(s)))
  {
    var r := TryRun(s, key);
    TryOwns(s, key);
    assert r[..5] == r[..4] + [r[4]];
    TryStep(r[..4], s, Alone(s, key, TryCount(0), true, 0, Some(s)), Alone(s, key, TryLeave(0), true, 1, Some(s)));
  }

  /** It gets the lock. */
  lemma TryLockSucceeds(s: Sid, key: Key)
    ensures Run(TryRun(s, key)).Some? && InCritical(Run(TryRun(s, key)).value, s, key)
  {
    var r := TryRun(s, key);
    TryCounts(s, key);
    assert r == r[..5] + [r[5]];
    RunSnoc(r[..5], r[5], Alone(s, key, TryLeave(0), true, 1, Some(s)));
  }

  // ----- refinement of one plain lock per key -----

  function Holders(st: State): set<Sid>
  {
    set s | s in st.sessions && st.sessions[s].pc.Critical?
  }

  /** A lock per key is what a client sees: the set of holders changes only by one session
      entering when no other holds its key, or by one session leaving. */
  lemma RefinesLockPerKey(run: seq<Event>, ev: Event)
    requires Run(run).Some? && Possible(Run(run).value, ev)
    ensures var st, st' := Run(run).value, Apply(Run(run).value, ev);
      || Holders(st') == Holders(st)
      || (exists s :: && s !in Holders(st) && Holders(st') == Holders(st) + {s}
                      && (forall t :: t in Holders(st) ==> st.sessions[t].key != st.sessions[s].key))
      || (exists s :: s in Holders(st) && Holders(st') == Holders(st) - {s})
  {
    var st, st' := Run(run).value, Apply(Run(run).value, ev);
    if ev.Step? {
      var s := ev.s;
      if st'.sessions[s].pc.Critical? {
        assert (run + [ev])[..|run|] == run;
        forall t | t in Holders(st)
          ensures st.sessions[t].key != st.sessions[s].key
        {
          if st.sessions[t].key == st.sessions[s].key {
            MutualExclusion(run + [ev], s, t, st.sessions[s].key);
          }
        }
        assert Holders(st') == Holders(st) + {s};
      } else if st.sessions[s].pc.Critical? {
        assert Holders(st') == Holders(st) - {s};
      } else {
        assert Holders(st') == Holders(st);
      }
    } else {
      assert Holders(st') == Holders(st);
    }
  }
}
