/** Nonces for transactions that are submitted concurrently by one signer to many chains, each
    chain's allocation guarded by the mutex of its id in a MapMutex.

    The state contains the whole mutex. Its sessions interleave step by step with the reads,
    the signing and the storing that SubmitTransaction does between Lock and Unlock. */
module NonceAllocator {
  import opened Wrappers
  import opened Numbers
  import M = MapMutex

  type Chain = M.Key
  type Sid = M.Sid

  /** What a submission that holds the nonce lock of its chain does next. */
  datatype Local =
    | Reading(chain: Option<nat>, db: Option<nat>)  // two concurrent reads, either may be first
    | Signing(seen: nat, nonce: nat)
    | Calling(seen: nat, nonce: nat)                // signed; the contract call has not returned
    | Storing(seen: nat, nonce: nat)
    | Leaving                                       // the deferred Unlock is next
    | Stuck                                         // call failed, or signed again, after signing

  /** A stored transaction, with the on-chain nonce that its submission read. */
  datatype Stored = Stored(seen: nat, nonce: nat)

  datatype State = State(
    mutex: M.State,
    local: map<Sid, Local>,
    onChain: map<Chain, nat>,
    txs: map<Chain, seq<Stored>>)
  {
    function OnChain(c: Chain): nat
    {
      Nonce(onChain, c)
    }

    function Txs(c: Chain): seq<Stored>
    {
      Rows(txs, c)
    }

    function ChainOf(s: Sid): Chain
      requires s in mutex.sessions
    {
      mutex.sessions[s].key
    }

    function Set(s: Sid, l: Local): State
    {
      this.(local := local[s := l])
    }
  }

  function Nonce(onChain: map<Chain, nat>, c: Chain): nat
  {
    if c in onChain then onChain[c] else 0
  }

  function Rows(txs: map<Chain, seq<Stored>>, c: Chain): seq<Stored>
  {
    if c in txs then txs[c] else []
  }

  const INIT := State(M.INIT, map[], map[], map[])

  /** The highest stored nonce. */
  function MaxNonce(txs: seq<Stored>): nat
    requires txs != []
  {
    var last := txs[|txs| - 1].nonce;
    if |txs| == 1 then last
    else var rest := MaxNonce(txs[..|txs| - 1]); if rest > last then rest else last
  }

  /** GetNonceForChainID and the increment after it, or 0 when there is no transaction. */
  function DbNonce(txs: seq<Stored>): nat
  {
    if txs == [] then 0 else MaxNonce(txs) + 1
  }

  datatype Event =
    | Mutex(ev: M.Event)
    | ReadChain(s: Sid)
    | ReadDb(s: Sid)
    | Choose(s: Sid)
    | Sign(s: Sid)
    | CallReturns(s: Sid)
    | CallGoesWrong(s: Sid)
    | Store(s: Sid)
    | Fail(s: Sid)                       // getNonce, signing or storing returns an error
    | Mined(c: Chain, nonce: nat)        // the account's nonce on chain moves
    | Reprocess(c: Chain, tx: Stored)    // the queue writes a transaction again

  predicate Possible(st: State, ev: Event)
  {
    match ev
    case Mutex(e) =>
      && M.Possible(st.mutex, e)
      && (e.Begin? ==> e.call.LockCall?)
      && (e.Step? && st.mutex.Pc(e.s).Critical? ==> e.s in st.local && st.local[e.s].Leaving?)
    case ReadChain(s) =>
      s in st.local && st.local[s].Reading? && st.local[s].chain == None && s in st.mutex.sessions
    case ReadDb(s) =>
      s in st.local && st.local[s].Reading? && st.local[s].db == None && s in st.mutex.sessions
    case Choose(s) =>
      s in st.local && st.local[s].Reading? && st.local[s].chain.Some? && st.local[s].db.Some?
    case Sign(s) => s in st.local && st.local[s].Signing?
    case CallReturns(s) => s in st.local && st.local[s].Calling?
    case CallGoesWrong(s) => s in st.local && st.local[s].Calling?
    case Store(s) => s in st.local && st.local[s].Storing? && s in st.mutex.sessions
    case Fail(s) =>
      s in st.local && (st.local[s].Reading? || st.local[s].Signing? || st.local[s].Storing?)
    case Mined(c, n) => st.OnChain(c) <= n
    case Reprocess(c, tx) => tx in st.Txs(c)
  }

  /** The notes follow the session that just moved: begun with its critical section, and thrown
      away when it leaves. */
  function MoveLocal(local: map<Sid, Local>, mutex: M.State, s: Sid): map<Sid, Local>
    requires s in mutex.sessions
  {
    if mutex.sessions[s].pc.Critical? then local[s := Reading(None, None)] else local - {s}
  }

  function Apply(st: State, ev: Event): State
    requires Possible(st, ev)
  {
    match ev
    case Mutex(e) =>
      var mutex := M.Apply(st.mutex, e);
      st.(mutex := mutex, local := if e.Begin? then st.local else MoveLocal(st.local, mutex, e.s))
    case ReadChain(s) => st.Set(s, st.local[s].(chain := Some(st.OnChain(st.ChainOf(s)))))
    case ReadDb(s) => st.Set(s, st.local[s].(db := Some(DbNonce(st.Txs(st.ChainOf(s))))))
    case Choose(s) =>
      var onChainNonce, dbNonce := st.local[s].chain.value, st.local[s].db.value;
      st.Set(s, Signing(onChainNonce, if onChainNonce > dbNonce then onChainNonce else dbNonce))
    case Sign(s) => st.Set(s, Calling(st.local[s].seen, st.local[s].nonce))
    case CallReturns(s) => st.Set(s, Storing(st.local[s].seen, st.local[s].nonce))
    case CallGoesWrong(s) => st.Set(s, Stuck)
    case Store(s) =>
      var c := st.ChainOf(s);
      st.(txs := st.txs[c := st.Txs(c) + [Stored(st.local[s].seen, st.local[s].nonce)]]).Set(s, Leaving)
    case Fail(s) => st.Set(s, Leaving)
    case Mined(c, n) => st.(onChain := st.onChain[c := n])
    case Reprocess(_, _) => st
  }

  function Run(run: seq<Event>): Option<State>
  {
    if run == [] then Some(INIT)
    else
      var prev := Run(run[..|run| - 1]);
      if prev.Some? && Possible(prev.value, run[|run| - 1])
      then Some(Apply(prev.value, run[|run| - 1])) else None
  }

  // ----- what the stored transactions of a chain look like -----

  /** Nonces strictly increase, none is below the on-chain nonce that was read for it, and
      every nonce between the two was stored before. */
  ghost predicate WellAllocated(txs: seq<Stored>)
  {
    && (forall i, j :: 0 <= i < j < |txs| ==> txs[i].nonce < txs[j].nonce)
    && (forall i :: 0 <= i < |txs| ==> txs[i].seen <= txs[i].nonce)
    && (forall i, n :: 0 <= i < |txs| && txs[i].seen <= n < txs[i].nonce ==> StoredBefore(txs, i, n))
  }

  predicate StoredBefore(txs: seq<Stored>, i: nat, n: nat)
    requires i <= |txs|
  {
    exists j :: 0 <= j < i && txs[j].nonce == n
  }

  lemma {:induction false} MaxIsLast(txs: seq<Stored>)
    requires WellAllocated(txs) && txs != []
    ensures MaxNonce(txs) == txs[|txs| - 1].nonce
  {
    if |txs| > 1 {
      var rest := txs[..|txs| - 1];
      forall i, n | 0 <= i < |rest| && rest[i].seen <= n < rest[i].nonce
        ensures StoredBefore(rest, i, n)
      {
        assert StoredBefore(txs, i, n);
      }
      MaxIsLast(rest);
    }
  }

  /** What getNonce picks extends the list well, if the chain's nonce never moved back. */
  lemma AllocationExtends(txs: seq<Stored>, seen: nat)
    requires WellAllocated(txs)
    requires SeenAtMost(txs, seen)
    ensures WellAllocated(txs + [Stored(seen, if seen > DbNonce(txs) then seen else DbNonce(txs))])
  {
    var nonce := if seen > DbNonce(txs) then seen else DbNonce(txs);
    var txs' := txs + [Stored(seen, nonce)];
    if txs != [] {
      MaxIsLast(txs);
    }
    var last := |txs| - 1;
    forall i, n | 0 <= i < |txs'| && txs'[i].seen <= n < txs'[i].nonce
      ensures StoredBefore(txs', i, n)
    {
      if i < |txs| {
        assert StoredBefore(txs, i, n);
        var j :| 0 <= j < i && txs[j].nonce == n;
        assert txs'[j].nonce == n;
      } else if n == txs[last].nonce {
        assert txs'[last].nonce == n;
      } else {
        assert StoredBefore(txs, last, n);
        var j :| 0 <= j < last && txs[j].nonce == n;
        assert txs'[j].nonce == n;
      }
    }
  }

  // ----- the invariant -----

  predicate SeenAtMost(txs: seq<Stored>, seen: nat)
  {
    forall i :: 0 <= i < |txs| ==> txs[i].seen <= seen
  }

  predicate SeenOk(txs: seq<Stored>, onChain: nat, seen: nat)
  {
    seen <= onChain && SeenAtMost(txs, seen)
  }

  predicate ChosenOk(txs: seq<Stored>, onChain: nat, seen: nat, nonce: nat)
  {
    SeenOk(txs, onChain, seen) && nonce == if seen > DbNonce(txs) then seen else DbNonce(txs)
  }

  /** A submission's notes match the chain and the database as long as it holds the lock. */
  predicate LocalOk(local: Local, txs: seq<Stored>, onChain: nat)
  {
    match local
    case Reading(chain, db) =>
      && (chain.Some? ==> SeenOk(txs, onChain, chain.value))
      && (db.Some? ==> db.value == DbNonce(txs))
    case Signing(seen, nonce) => ChosenOk(txs, onChain, seen, nonce)
    case Calling(seen, nonce) => ChosenOk(txs, onChain, seen, nonce)
    case Storing(seen, nonce) => ChosenOk(txs, onChain, seen, nonce)
    case Leaving => true
    case Stuck => true
  }

  /** The submissions with notes are those in the critical section, and one chain has one. */
  ghost predicate LockInv(local: map<Sid, Local>, sessions: map<Sid, M.Session>)
  {
    && (forall s :: s in local <==> s in sessions && sessions[s].pc.Critical?)
    && (forall s, t :: s in local && t in local && s != t ==> sessions[s].key != sessions[t].key)
  }

  ghost predicate NotesInv(
      local: map<Sid, Local>, sessions: map<Sid, M.Session>,
      txs: map<Chain, seq<Stored>>, onChain: map<Chain, nat>)
  {
    forall s :: s in local && s in sessions ==>
      LocalOk(local[s], Rows(txs, sessions[s].key), Nonce(onChain, sessions[s].key))
  }

  ghost predicate TxInv(txs: map<Chain, seq<Stored>>, onChain: map<Chain, nat>)
  {
    forall c :: WellAllocated(Rows(txs, c)) && SeenAtMost(Rows(txs, c), Nonce(onChain, c))
  }

  ghost predicate Inv(st: State)
  {
    && M.Inv(st.mutex)
    && LockInv(st.local, st.mutex.sessions)
    && NotesInv(st.local, st.mutex.sessions, st.txs, st.onChain)
    && TxInv(st.txs, st.onChain)
  }

  ghost predicate Exclusive(mutex: M.State)
  {
    forall s, t, key :: M.InCritical(mutex, s, key) && M.InCritical(mutex, t, key) ==> s == t
  }

  lemma MoveKeeps(st: State, mutex: M.State, s: Sid)
    requires LockInv(st.local, st.mutex.sessions) && Exclusive(mutex)
    requires NotesInv(st.local, st.mutex.sessions, st.txs, st.onChain)
    requires s in mutex.sessions && mutex.sessions == st.mutex.sessions[s := mutex.sessions[s]]
    requires s in st.mutex.sessions ==> mutex.sessions[s].key == st.mutex.sessions[s].key
    ensures LockInv(MoveLocal(st.local, mutex, s), mutex.sessions)
    ensures NotesInv(MoveLocal(st.local, mutex, s), mutex.sessions, st.txs, st.onChain)
  {
    var local := MoveLocal(st.local, mutex, s);
    forall t, u | t in local && u in local && t != u
      ensures mutex.sessions[t].key != mutex.sessions[u].key
    {
      assert M.InCritical(mutex, t, mutex.sessions[t].key);
      assert M.InCritical(mutex, u, mutex.sessions[u].key);
    }
  }

  lemma MutexKeeps(st: State, e: M.Event)
    requires Possible(st, Mutex(e)) && Exclusive(M.Apply(st.mutex, e))
    requires LockInv(st.local, st.mutex.sessions)
    requires NotesInv(st.local, st.mutex.sessions, st.txs, st.onChain)
    ensures var st' := Apply(st, Mutex(e));
      && LockInv(st'.local, st'.mutex.sessions)
      && NotesInv(st'.local, st'.mutex.sessions, st.txs, st.onChain)
  {
    var mutex := M.Apply(st.mutex, e);
    if e.Step? {
      M.StepsRunOut(st.mutex, e.s);
      M.OnlyLockEnters(st.mutex, e.s);
      assert mutex.sessions == st.mutex.sessions[e.s := mutex.sessions[e.s]];
      MoveKeeps(st, mutex, e.s);
    } else {
      MoveKeeps(st, mutex, e.s);
      assert st.local - {e.s} == st.local;
    }
  }

  predicate IsNote(ev: Event)
  {
    !ev.Mutex? && !ev.Store? && !ev.Mined? && !ev.Reprocess?
  }

  /** What a submission notes down is right when it does. */
  lemma NoteOk(st: State, ev: Event)
    requires IsNote(ev) && Possible(st, ev) && ev.s in st.mutex.sessions
    requires NotesInv(st.local, st.mutex.sessions, st.txs, st.onChain)
    requires SeenAtMost(st.Txs(st.ChainOf(ev.s)), st.OnChain(st.ChainOf(ev.s)))
    ensures ev.s in Apply(st, ev).local
    ensures Apply(st, ev) == st.Set(ev.s, Apply(st, ev).local[ev.s])
    ensures LocalOk(Apply(st, ev).local[ev.s], st.Txs(st.ChainOf(ev.s)), st.OnChain(st.ChainOf(ev.s)))
  {
    assert LocalOk(st.local[ev.s], st.Txs(st.ChainOf(ev.s)), st.OnChain(st.ChainOf(ev.s)));
  }

  lemma NotesKept(st: State, ev: Event)
    requires LockInv(st.local, st.mutex.sessions) && TxInv(st.txs, st.onChain)
    requires NotesInv(st.local, st.mutex.sessions, st.txs, st.onChain)
    requires IsNote(ev) && Possible(st, ev)
    ensures var st' := Apply(st, ev);
      && st'.mutex == st.mutex && st'.txs == st.txs && st'.onChain == st.onChain
      && LockInv(st'.local, st.mutex.sessions)
      && NotesInv(st'.local, st.mutex.sessions, st.txs, st.onChain)
  {
    NoteOk(st, ev);
  }

  lemma MinedKeeps(st: State, c: Chain, n: nat)
    requires NotesInv(st.local, st.mutex.sessions, st.txs, st.onChain) && TxInv(st.txs, st.onChain)
    requires Possible(st, Mined(c, n))
    ensures var onChain := st.onChain[c := n];
      NotesInv(st.local, st.mutex.sessions, st.txs, onChain) && TxInv(st.txs, onChain)
  {
    forall d
      ensures Nonce(st.onChain[c := n], d) >= Nonce(st.onChain, d)
    {
    }
  }

  /** The other submissions are on other chains, so a new row is no news to their notes. */
  lemma RowKeepsNotes(st: State, s: Sid, row: Stored)
    requires LockInv(st.local, st.mutex.sessions)
    requires NotesInv(st.local, st.mutex.sessions, st.txs, st.onChain)
    requires s in st.local
    ensures LockInv(st.local[s := Leaving], st.mutex.sessions)
    ensures var txs := st.txs[st.ChainOf(s) := st.Txs(st.ChainOf(s)) + [row]];
      NotesInv(st.local[s := Leaving], st.mutex.sessions, txs, st.onChain)
  {
    var c := st.ChainOf(s);
    var txs := st.txs[c := st.Txs(c) + [row]];
    forall d | d != c
      ensures Rows(txs, d) == Rows(st.txs, d)
    {
    }
  }

  lemma RowKeepsTxs(
      txs: map<Chain, seq<Stored>>, onChain: map<Chain, nat>, c: Chain, seen: nat, nonce: nat)
    requires TxInv(txs, onChain) && ChosenOk(Rows(txs, c), Nonce(onChain, c), seen, nonce)
    ensures TxInv(txs[c := Rows(txs, c) + [Stored(seen, nonce)]], onChain)
  {
    AllocationExtends(Rows(txs, c), seen);
    var txs' := txs[c := Rows(txs, c) + [Stored(seen, nonce)]];
    forall d
      ensures WellAllocated(Rows(txs', d)) && SeenAtMost(Rows(txs', d), Nonce(onChain, d))
    {
      assert d != c ==> Rows(txs', d) == Rows(txs, d);
    }
  }

  lemma StoreKeeps(st: State, s: Sid)
    requires LockInv(st.local, st.mutex.sessions)
    requires NotesInv(st.local, st.mutex.sessions, st.txs, st.onChain) && TxInv(st.txs, st.onChain)
    requires Possible(st, Store(s))
    ensures var st' := Apply(st, Store(s));
      && LockInv(st'.local, st.mutex.sessions)
      && NotesInv(st'.local, st.mutex.sessions, st'.txs, st.onChain) && TxInv(st'.txs, st.onChain)
  {
    var seen, nonce := st.local[s].seen, st.local[s].nonce;
    assert LocalOk(st.local[s], st.Txs(st.ChainOf(s)), st.OnChain(st.ChainOf(s)));
    RowKeepsNotes(st, s, Stored(seen, nonce));
    RowKeepsTxs(st.txs, st.onChain, st.ChainOf(s), seen, nonce);
  }

  lemma HoldersExclusive(mutex: M.State)
    requires M.Inv(mutex)
    ensures Exclusive(mutex)
  {
    forall s, t, key | M.InCritical(mutex, s, key) && M.InCritical(mutex, t, key)
      ensures s == t
    {
      M.OneHolder(mutex, s, t, key);
    }
  }

  lemma EventInv(st: State, ev: Event)
    requires Inv(st) && Possible(st, ev)
    ensures Inv(Apply(st, ev))
  {
    match ev
    case Mutex(e) =>
      M.ApplyInv(st.mutex, e);
      HoldersExclusive(M.Apply(st.mutex, e));
      MutexKeeps(st, e);
    case Store(s) => StoreKeeps(st, s);
    case Mined(c, n) => MinedKeeps(st, c, n);
    case Reprocess(_, _) =>
    case _ => NotesKept(st, ev);
  }

  lemma {:induction false} RunInv(run: seq<Event>)
    requires Run(run).Some?
    ensures Inv(Run(run).value)
  {
    if run == [] {
      M.RunInv([]);
    } else {
      RunInv(run[..|run| - 1]);
      EventInv(Run(run[..|run| - 1]).value, run[|run| - 1]);
    }
  }

  lemma RunLocks(run: seq<Event>)
    requires Run(run).Some?
    ensures LockInv(Run(run).value.local, Run(run).value.mutex.sessions)
  {
    RunInv(run);
  }

  // ----- what holds after every run -----

  /** On each chain the stored nonces strictly increase, none is below the account's nonce that
      its submission read, and no nonce from that one on was skipped. */
  lemma NoncesWellAllocated(run: seq<Event>, c: Chain)
    requires Run(run).Some?
    ensures WellAllocated(Run(run).value.Txs(c))
  {
    RunInv(run);
  }

  /** Read as numbers: stored nonces are distinct, and whatever is missing below one of them was
      already used on chain when it was chosen. */
  lemma NoGaps(run: seq<Event>, c: Chain, i: nat, n: nat)
    requires Run(run).Some?
    requires i < |Run(run).value.Txs(c)| && n < Run(run).value.Txs(c)[i].nonce
    ensures var txs := Run(run).value.Txs(c);
      && (forall j :: 0 <= j < |txs| && j != i ==> txs[j].nonce != txs[i].nonce)
      && (StoredBefore(txs, i, n) || n < txs[i].seen)
  {
    NoncesWellAllocated(run, c);
    var txs := Run(run).value.Txs(c);
    if txs[i].seen <= n {
      assert StoredBefore(txs, i, n);
    }
  }

  /** The submission holds the lock of the chain and will not give it back. */
  predicate StuckOn(st: State, s: Sid, c: Chain)
  {
    && s in st.local && st.local[s] == Stuck
    && s in st.mutex.sessions && st.ChainOf(s) == c
  }

  /** A contract call that fails after its transaction was signed keeps the lock for good: from
      then on no other submission to that chain gets past Lock, so its nonces stand still. */
  lemma {:induction false} StuckForever(run: seq<Event>, more: seq<Event>, s: Sid)
    requires Run(run).Some? && Run(run + more).Some?
    requires s in Run(run).value.mutex.sessions && StuckOn(Run(run).value, s, Run(run).value.ChainOf(s))
    ensures var st, st' := Run(run).value, Run(run + more).value;
      && StuckOn(st', s, st.ChainOf(s)) && st'.Txs(st.ChainOf(s)) == st.Txs(st.ChainOf(s))
      && (forall t :: t in st'.local && t != s && t in st'.mutex.sessions ==> st'.ChainOf(t) != st.ChainOf(s))
    decreases |more|
  {
    RunLocks(run + more);
    if more == [] {
      assert run + more == run;
    } else {
      var front := more[..|more| - 1];
      assert (run + more)[..|run + more| - 1] == run + front;
      assert (run + more)[|run + more| - 1] == more[|more| - 1];
      RunLocks(run + front);
      StuckForever(run, front, s);
      StuckStep(Run(run + front).value, more[|more| - 1], s, Run(run).value.ChainOf(s));
    }
  }

  lemma StuckStep(st: State, ev: Event, s: Sid, c: Chain)
    requires LockInv(st.local, st.mutex.sessions) && Possible(st, ev) && StuckOn(st, s, c)
    ensures StuckOn(Apply(st, ev), s, c) && Apply(st, ev).Txs(c) == st.Txs(c)
  {
    if ev.Mutex? && ev.ev.Step? {
      M.StepsRunOut(st.mutex, ev.ev.s);
    }
  }

  lemma RunSnoc(run: seq<Event>, ev: Event)
    requires Run(run).Some? && Possible(Run(run).value, ev)
    ensures Run(run + [ev]) == Some(Apply(Run(run).value, ev))
  {
    assert (run + [ev])[..|run|] == run;
  }

  // ----- what is stored, told from the events alone -----

  /** The chain that a submission was begun on. */
  function BegunOn(run: seq<Event>, s: Sid): Option<Chain>
  {
    if run == [] then None
    else
      match run[|run| - 1]
      case Mutex(Begin(t, key, _)) => if t == s then Some(key) else BegunOn(run[..|run| - 1], s)
      case _ => BegunOn(run[..|run| - 1], s)
  }

  /** The account's nonce: the one it moved to last. */
  function MinedNonce(run: seq<Event>, c: Chain): nat
  {
    if run == [] then 0
    else
      match run[|run| - 1]
      case Mined(d, n) => if d == c then n else MinedNonce(run[..|run| - 1], c)
      case _ => MinedNonce(run[..|run| - 1], c)
  }

  /** The account's nonce when the submission read it. */
  function SeenBy(run: seq<Event>, s: Sid): nat
  {
    if run == [] then 0
    else
      var front := run[..|run| - 1];
      if run[|run| - 1] == ReadChain(s) && BegunOn(front, s).Some? then MinedNonce(front, BegunOn(front, s).value)
      else SeenBy(front, s)
  }

  /** Each Store adds a row: what the submission had read, and the larger of that and the next free
      nonce. Nothing else adds or changes one. */
  function Allocated(run: seq<Event>, c: Chain): seq<Stored>
  {
    if run == [] then []
    else
      var front := run[..|run| - 1];
      var rows := Allocated(front, c);
      match run[|run| - 1]
      case Store(s) =>
        if BegunOn(front, s) == Some(c) then rows + [Stored(SeenBy(front, s), Max(SeenBy(front, s), DbNonce(rows)))]
        else rows
      case _ => rows
  }

  function StoresOn(run: seq<Event>, c: Chain): nat
  {
    if run == [] then 0
    else
      var front := run[..|run| - 1];
      StoresOn(front, c) + match run[|run| - 1] case Store(s) => (if BegunOn(front, s) == Some(c) then 1 else 0) case _ => 0
  }

  lemma {:induction false} KeyIsBegunOn(run: seq<Event>, s: Sid)
    requires Run(run).Some? && s in Run(run).value.mutex.sessions
    ensures BegunOn(run, s) == Some(Run(run).value.ChainOf(s))
  {
    var front, ev := run[..|run| - 1], run[|run| - 1];
    var prev := Run(front).value;
    KeyStep(prev, ev, s);
    if s in prev.mutex.sessions {
      KeyIsBegunOn(front, s);
    }
  }

  predicate Begins(ev: Event, s: Sid)
  {
    ev.Mutex? && ev.ev.Begin? && ev.ev.s == s
  }

  lemma KeyStep(st: State, ev: Event, s: Sid)
    requires Possible(st, ev) && s in Apply(st, ev).mutex.sessions
    ensures Begins(ev, s) ==> ev.ev.key == Apply(st, ev).ChainOf(s)
    ensures !Begins(ev, s) ==> s in st.mutex.sessions && Apply(st, ev).ChainOf(s) == st.ChainOf(s)
  {
    if ev.Mutex? {
      KeyKept(st.mutex, ev.ev, s);
    }
  }

  /** A session has the key that it was begun with. */
  lemma KeyKept(mutex: M.State, ev: M.Event, s: Sid)
    requires M.Possible(mutex, ev) && s in M.Apply(mutex, ev).sessions
    ensures s !in mutex.sessions ==> ev.Begin? && ev.s == s && ev.key == M.Apply(mutex, ev).sessions[s].key
    ensures s in mutex.sessions ==>
      M.Apply(mutex, ev).sessions[s].key == mutex.sessions[s].key && !(ev.Begin? && ev.s == s)
  {
    if ev.Step? {
      M.OthersUntouched(mutex, ev.s);
      M.OnlyLockEnters(mutex, ev.s);
    }
  }

  lemma {:induction false} OnChainIsMined(run: seq<Event>, c: Chain)
    requires Run(run).Some?
    ensures Run(run).value.OnChain(c) == MinedNonce(run, c)
  {
    if run == [] {
    } else {
      OnChainIsMined(run[..|run| - 1], c);
    }
  }

  /** The on-chain nonce in a submission's notes, once it is there. */
  predicate HasSeen(l: Local, seen: nat)
  {
    match l
    case Reading(chain, _) => chain.Some? ==> chain.value == seen
    case Signing(n, _) => n == seen
    case Calling(n, _) => n == seen
    case Storing(n, _) => n == seen
    case _ => true
  }

  lemma {:induction false} NotesSeen(run: seq<Event>, s: Sid)
    requires Run(run).Some? && s in Run(run).value.local
    ensures HasSeen(Run(run).value.local[s], SeenBy(run, s))
  {
    var front, ev := run[..|run| - 1], run[|run| - 1];
    var prev := Run(front).value;
    if ev == ReadChain(s) {
      KeyIsBegunOn(front, s);
      OnChainIsMined(front, prev.ChainOf(s));
    } else {
      if s in prev.local {
        NotesSeen(front, s);
      }
      SeenStep(prev, ev, s, SeenBy(front, s));
    }
  }

  /** No other event touches what a submission has seen. */
  lemma SeenStep(st: State, ev: Event, s: Sid, seen: nat)
    requires Possible(st, ev) && ev != ReadChain(s) && s in Apply(st, ev).local
    requires s in st.local ==> HasSeen(st.local[s], seen)
    ensures HasSeen(Apply(st, ev).local[s], seen)
  {
  }

  lemma StoringNonce(run: seq<Event>, s: Sid)
    requires Run(run).Some? && Possible(Run(run).value, Store(s))
    ensures var st := Run(run).value;
      st.local[s].nonce == Max(st.local[s].seen, DbNonce(st.Txs(st.ChainOf(s))))
  {
    RunInv(run);
    var st := Run(run).value;
    assert LocalOk(st.local[s], Rows(st.txs, st.ChainOf(s)), Nonce(st.onChain, st.ChainOf(s)));
  }

  /** The stored transactions of a chain are those of its Store events, each with the nonce that
      was read for it and the nonce that this gave it. */
  lemma {:induction false} TxsAreAllocated(run: seq<Event>, c: Chain)
    requires Run(run).Some?
    ensures Run(run).value.Txs(c) == Allocated(run, c)
    ensures |Run(run).value.Txs(c)| == StoresOn(run, c)
  {
    if run == [] {
    } else {
      var front, ev := run[..|run| - 1], run[|run| - 1];
      TxsAreAllocated(front, c);
      if ev.Store? {
        StoringNonce(front, ev.s);
        NotesSeen(front, ev.s);
        KeyIsBegunOn(front, ev.s);
      }
    }
  }

  /** A submission that has just got the lock can go through to its transaction. */
  lemma CanStore(st: State, s: Sid) returns (more: seq<Event>, end: State)
    requires s in st.local && st.local[s] == Reading(None, None) && s in st.mutex.sessions
    ensures RunFrom(st, more) == Some(end) && end.mutex == st.mutex && end.onChain == st.onChain
    ensures var c := st.ChainOf(s);
      end.Txs(c) == st.Txs(c) + [Stored(st.OnChain(c), Max(st.OnChain(c), DbNonce(st.Txs(c))))]
    ensures s in end.local && end.local[s] == Leaving
  {
    var c := st.ChainOf(s);
    var seen, free := st.OnChain(c), DbNonce(st.Txs(c));
    var nonce := Max(seen, free);
    var a := st.Set(s, Reading(Some(seen), None));
    var b := st.Set(s, Reading(Some(seen), Some(free)));
    var d := st.Set(s, Signing(seen, nonce));
    var e := st.Set(s, Calling(seen, nonce));
    var f := st.Set(s, Storing(seen, nonce));
    assert Apply(st, ReadChain(s)) == a && Apply(a, ReadDb(s)) == b && Apply(b, Choose(s)) == d;
    assert Apply(d, Sign(s)) == e && Apply(e, CallReturns(s)) == f;
    end := Apply(f, Store(s));
    OneMore(f, Store(s), [], end);
    OneMore(e, CallReturns(s), [Store(s)] + [], end);
    more := [CallReturns(s)] + ([Store(s)] + []);
    OneMore(d, Sign(s), more, end);
    more := [Sign(s)] + more;
    OneMore(b, Choose(s), more, end);
    more := [Choose(s)] + more;
    OneMore(a, ReadDb(s), more, end);
    more := [ReadDb(s)] + more;
    OneMore(st, ReadChain(s), more, end);
    more := [ReadChain(s)] + more;
  }

  // ----- when the lock is given back -----

  /** A submission gets stuck by its caller's doing and in no other way. */
  lemma {:induction false} StuckIff(run: seq<Event>, s: Sid)
    requires Run(run).Some?
    ensures s in Run(run).value.local && Run(run).value.local[s] == Stuck <==> CallGoesWrong(s) in run
  {
    if run == [] {
    } else {
      var front, ev := run[..|run| - 1], run[|run| - 1];
      StuckIff(front, s);
      assert run == front + [ev];
      RunLocks(front);
      var st := Run(front).value;
      if s in st.local && st.local[s] == Stuck {
        StuckStep(st, ev, s, st.ChainOf(s));
      } else {
        OnlyTheCallSticks(st, ev, s);
      }
    }
  }

  lemma OnlyTheCallSticks(st: State, ev: Event, s: Sid)
    requires Possible(st, ev) && !(s in st.local && st.local[s] == Stuck)
    ensures s in Apply(st, ev).local && Apply(st, ev).local[s] == Stuck <==> ev == CallGoesWrong(s)
  {
  }

  /** The submission has been through all of its Unlock. */
  predicate Released(st: State, s: Sid)
  {
    s in st.mutex.sessions && st.mutex.sessions[s].pc == M.Done(true)
  }

  /** On the way through Unlock, with the map's mutex free or held by the session itself. */
  predicate Unlocking(mutex: M.State, s: Sid)
  {
    && s in mutex.sessions
    && M.InUnlock(mutex.sessions[s].pc) && !mutex.sessions[s].pc.Critical?
    && (mutex.sessions[s].pc.UnlockStart? ==> mutex.ml == None)
  }

  lemma UnlockNext(mutex: M.State, s: Sid)
    requires M.Enabled(mutex, s) && M.InUnlock(mutex.Pc(s)) && !mutex.Pc(s).Critical?
    requires s in M.Next(mutex, s).sessions && M.PcOk(M.Next(mutex, s).sessions[s].pc)
    ensures Unlocking(M.Next(mutex, s), s) || M.Next(mutex, s).sessions[s].pc == M.Done(true)
  {
  }

  lemma UnlockMoves(mutex: M.State, s: Sid)
    requires M.Inv(mutex) && Unlocking(mutex, s)
    ensures M.Enabled(mutex, s) && !mutex.Pc(s).Critical?
    ensures var mutex' := M.Next(mutex, s);
      s in mutex'.sessions && (Unlocking(mutex', s) || mutex'.sessions[s].pc == M.Done(true))
  {
    M.UnlockEnabled(mutex, s);
    M.StepInv(mutex, s);
    M.OthersUntouched(mutex, s);
    UnlockNext(mutex, s);
  }

  /** Where events lead from a state. */
  function RunFrom(st: State, more: seq<Event>): Option<State>
    decreases |more|
  {
    if more == [] then Some(st)
    else if Possible(st, more[0]) then RunFrom(Apply(st, more[0]), more[1..]) else None
  }

  lemma {:induction false} RunOn(run: seq<Event>, more: seq<Event>)
    requires Run(run).Some?
    ensures Run(run + more) == RunFrom(Run(run).value, more)
    decreases |more|
  {
    if more == [] {
      assert run + more == run;
    } else {
      assert run + more == run + [more[0]] + more[1..];
      assert (run + [more[0]])[..|run|] == run;
      if Possible(Run(run).value, more[0]) {
        RunSnoc(run, more[0]);
        RunOn(run + [more[0]], more[1..]);
      } else {
        NoRunOn(run + [more[0]], more[1..]);
      }
    }
  }

  lemma {:induction false} NoRunOn(run: seq<Event>, more: seq<Event>)
    requires Run(run) == None
    ensures Run(run + more) == None
    decreases |more|
  {
    if more == [] {
      assert run + more == run;
    } else {
      NoRunOn(run, more[..|more| - 1]);
      assert (run + more)[..|run + more| - 1] == run + more[..|more| - 1];
    }
  }

  lemma OneMore(st: State, ev: Event, rest: seq<Event>, end: State)
    requires Possible(st, ev) && RunFrom(Apply(st, ev), rest) == Some(end)
    ensures RunFrom(st, [ev] + rest) == Some(end)
  {
    assert ([ev] + rest)[1..] == rest;
  }

  lemma {:induction false} RunFromConcat(st: State, a: seq<Event>, mid: State, b: seq<Event>)
    requires RunFrom(st, a) == Some(mid)
    ensures RunFrom(st, a + b) == RunFrom(mid, b)
    decreases |a|
  {
    if a == [] {
      assert a + b == b;
    } else {
      RunFromConcat(Apply(st, a[0]), a[1..], mid, b);
      assert (a + b)[1..] == a[1..] + b;
    }
  }

  /** A holder whose call has not gone wrong can come to its deferred Unlock without touching the
      mutex. */
  lemma CanLeave(st: State, s: Sid) returns (more: seq<Event>, end: State)
    requires s in st.local && st.local[s] != Stuck
    ensures RunFrom(st, more) == Some(end) && end.mutex == st.mutex
    ensures s in end.local && end.local[s] == Leaving
  {
    if st.local[s].Leaving? {
      more, end := [], st;
    } else if st.local[s].Calling? {
      var mid := Apply(st, CallReturns(s));
      end := Apply(mid, Fail(s));
      OneMore(mid, Fail(s), [], end);
      OneMore(st, CallReturns(s), [Fail(s)], end);
      more := [CallReturns(s)] + [Fail(s)];
    } else {
      end := Apply(st, Fail(s));
      OneMore(st, Fail(s), [], end);
      more := [Fail(s)];
    }
  }

  /** A step outside the critical sections is the mutex's own. */
  lemma MutexMoves(st: State, t: Sid)
    requires M.Enabled(st.mutex, t) && !st.mutex.Pc(t).Critical?
    ensures Possible(st, Mutex(M.Step(t)))
    ensures Apply(st, Mutex(M.Step(t))).mutex == M.Next(st.mutex, t)
  {
  }

  function Left(mutex: M.State): nat
  {
    if mutex.ml.Some? && mutex.ml.value in mutex.sessions
    then M.Remaining(mutex.sessions[mutex.ml.value].pc) else 0
  }

  /** Whoever holds the map's mutex can move on towards giving it back. */
  lemma MlHolderMoves(mutex: M.State, s: Sid)
    requires M.Inv(mutex) && mutex.ml.Some? && s in mutex.sessions && mutex.sessions[s].pc.UnlockStart?
    ensures M.Enabled(mutex, mutex.ml.value) && !mutex.Pc(mutex.ml.value).Critical?
    ensures var mutex' := M.Next(mutex, mutex.ml.value);
      && (mutex'.ml == None || Left(mutex') < Left(mutex))
      && s in mutex'.sessions && mutex'.sessions[s] == mutex.sessions[s]
  {
    var t := mutex.ml.value;
    M.MlHolderEnabled(mutex);
    M.StepsRunOut(mutex, t);
    M.OthersUntouched(mutex, t);
    assert M.Abs(mutex).views[t] == M.ViewOf(mutex.sessions[t]);
    assert M.Abs(mutex).views[s] == M.ViewOf(mutex.sessions[s]);
    MlAfter(mutex, t);
  }

  lemma MlAfter(mutex: M.State, t: Sid)
    requires M.Enabled(mutex, t) && mutex.ml == Some(t)
    ensures M.Next(mutex, t).ml == None || M.Next(mutex, t).ml == Some(t)
  {
  }

  /** So the map's mutex becomes free while session `s` waits for it. */
  lemma CanFreeMl(st: State, s: Sid) returns (more: seq<Event>, end: State)
    requires M.Inv(st.mutex) && s in st.mutex.sessions && st.mutex.sessions[s].pc.UnlockStart?
    ensures RunFrom(st, more) == Some(end) && M.Inv(end.mutex)
    ensures Unlocking(end.mutex, s)
    decreases Left(st.mutex)
  {
    if st.mutex.ml == None {
      more, end := [], st;
    } else {
      var t := st.mutex.ml.value;
      var ev := Mutex(M.Step(t));
      MlHolderMoves(st.mutex, s);
      MutexMoves(st, t);
      M.StepInv(st.mutex, t);
      var next := Apply(st, ev);
      var rest: seq<Event> := [];
      if next.mutex.ml == None {
        end := next;
      } else {
        rest, end := CanFreeMl(next, s);
      }
      OneMore(st, ev, rest, end);
      more := [ev] + rest;
    }
  }

  /** Unlock runs to its end. */
  lemma CanFinish(st: State, s: Sid) returns (more: seq<Event>, end: State)
    requires M.Inv(st.mutex) && Unlocking(st.mutex, s)
    ensures RunFrom(st, more) == Some(end) && Released(end, s)
    decreases M.Remaining(st.mutex.sessions[s].pc)
  {
    var ev := Mutex(M.Step(s));
    UnlockMoves(st.mutex, s);
    MutexMoves(st, s);
    M.StepInv(st.mutex, s);
    M.StepsRunOut(st.mutex, s);
    var next := Apply(st, ev);
    var rest: seq<Event> := [];
    if Released(next, s) {
      end := next;
    } else {
      rest, end := CanFinish(next, s);
    }
    OneMore(st, ev, rest, end);
    more := [ev] + rest;
  }

  lemma LeavingUnlocks(st: State, s: Sid)
    requires M.Inv(st.mutex) && s in st.local && st.local[s] == Leaving
    requires s in st.mutex.sessions && st.mutex.sessions[s].pc.Critical?
    ensures Possible(st, Mutex(M.Step(s)))
    ensures var mutex := Apply(st, Mutex(M.Step(s))).mutex;
      M.Inv(mutex) && s in mutex.sessions && mutex.sessions[s].pc.UnlockStart?
  {
    M.StepInv(st.mutex, s);
    M.OnlyLockEnters(st.mutex, s);
  }

  lemma CanRelease(st: State, s: Sid) returns (more: seq<Event>, end: State)
    requires Inv(st) && s in st.local && st.local[s] != Stuck
    ensures RunFrom(st, more) == Some(end) && Released(end, s)
  {
    var a, leaving := CanLeave(st, s);
    var ev := Mutex(M.Step(s));
    LeavingUnlocks(leaving, s);
    var unlocking := Apply(leaving, ev);
    var b, free := CanFreeMl(unlocking, s);
    var d, done := CanFinish(free, s);
    RunFromConcat(unlocking, b, free, d);
    OneMore(leaving, ev, b + d, done);
    RunFromConcat(st, a, leaving, [ev] + (b + d));
    more, end := a + ([ev] + (b + d)), done;
  }

  /** Whoever holds a nonce lock can still give it back exactly when its contract call has not
      failed, or signed again, after signing. */
  lemma ReleasedIff(run: seq<Event>, s: Sid)
    requires Run(run).Some? && s in Run(run).value.local
    ensures (exists more :: Run(run + more).Some? && Released(Run(run + more).value, s))
       <==> CallGoesWrong(s) !in run
  {
    StuckIff(run, s);
    if CallGoesWrong(s) !in run {
      RunInv(run);
      var more, end := CanRelease(Run(run).value, s);
      RunOn(run, more);
    } else {
      RunLocks(run);
      forall more | Run(run + more).Some?
        ensures !Released(Run(run + more).value, s)
      {
        StuckForever(run, more, s);
        RunLocks(run + more);
      }
    }
  }

  // ----- it does happen -----

  /** Submission `s` up to its signature, and the failure of its call after that. */
  function CallFailsRun(s: Sid, c: Chain): seq<Event>
  {
    [Mutex(M.Begin(s, c, M.LockCall)), Mutex(M.Step(s)), Mutex(M.Step(s)), Mutex(M.Step(s)),
     Mutex(M.Step(s)), Mutex(M.Step(s)), ReadChain(s), ReadDb(s), Choose(s), Sign(s), CallGoesWrong(s)]
  }

  /** One session, on its way to the lock with nobody else about. */
  function Solo(s: Sid, c: Chain, pc: M.Pc, ml: bool, cnt: int, owner: Option<Sid>, local: map<Sid, Local>): State
  {
    State(M.State(if ml then Some(s) else None, map[c := 0], [M.P.Entry.Entry(c, cnt, owner)],
                  map[s := M.Session(c, pc)]),
          local, map[], map[])
  }

  lemma SoloStep(run: seq<Event>, s: Sid, st: State, st': State)
    requires Run(run) == Some(st) && Possible(st, Mutex(M.Step(s))) && Apply(st, Mutex(M.Step(s))) == st'
    ensures Run(run + [Mutex(M.Step(s))]) == Some(st')
  {
    RunSnoc(run, Mutex(M.Step(s)));
  }

  /** One session that has begun, and nothing else. */
  function Begun(s: Sid, c: Chain, pc: M.Pc, ml: bool): State
  {
    State(M.State(if ml then Some(s) else None, map[], [], map[s := M.Session(c, pc)]), map[], map[], map[])
  }

  lemma SoloBegins(s: Sid, c: Chain)
    ensures Run(CallFailsRun(s, c)[..2]) == Some(Begun(s, c, M.Lookup(M.LockCall), true))
  {
    var r := CallFailsRun(s, c);
    assert r[..0] == [];
    assert r[..1] == r[..0] + [r[0]];
    RunSnoc(r[..0], r[0]);
    assert r[..2] == r[..1] + [r[1]];
    SoloStep(r[..1], s, Begun(s, c, M.Start(M.LockCall), false), Begun(s, c, M.Lookup(M.LockCall), true));
  }

  /** It finds no entry and makes one. */
  lemma SoloLookup(s: Sid, c: Chain)
    ensures Run(CallFailsRun(s, c)[..3]) == Some(Solo(s, c, M.LockCount(0, true), true, 0, None, map[]))
  {
    var r := CallFailsRun(s, c);
    SoloBegins(s, c);
    assert r[..3] == r[..2] + [r[2]];
    SoloStep(r[..2], s, Begun(s, c, M.Lookup(M.LockCall), true),
             Solo(s, c, M.LockCount(0, true), true, 0, None, map[]));
  }

  lemma SoloCounts(s: Sid, c: Chain)
    ensures Run(CallFailsRun(s, c)[..4]) == Some(Solo(s, c, M.LockLeave(0), true, 1, None, map[]))
  {
    var r := CallFailsRun(s, c);
    SoloLookup(s, c);
    assert r[..4] == r[..3] + [r[3]];
    SoloStep(r[..3], s, Solo(s, c, M.LockCount(0, true), true, 0, None, map[]),
             Solo(s, c, M.LockLeave(0), true, 1, None, map[]));
  }

  lemma SoloWaits(s: Sid, c: Chain)
    ensures Run(CallFailsRun(s, c)[..5]) == Some(Solo(s, c, M.LockWait(0), false, 1, None, map[]))
  {
    var r := CallFailsRun(s, c);
    SoloCounts(s, c);
    assert r[..5] == r[..4] + [r[4]];
    SoloStep(r[..4], s, Solo(s, c, M.LockLeave(0), true, 1, None, map[]),
             Solo(s, c, M.LockWait(0), false, 1, None, map[]));
  }

  lemma SoloLocks(s: Sid, c: Chain)
    ensures Run(CallFailsRun(s, c)[..6])
         == Some(Solo(s, c, M.Critical(0), false, 1, Some(s), map[s := Reading(None, None)]))
  {
    var r := CallFailsRun(s, c);
    SoloWaits(s, c);
    assert r[..6] == r[..5] + [r[5]];
    SoloStep(r[..5], s, Solo(s, c, M.LockWait(0), false, 1, None, map[]),
             Solo(s, c, M.Critical(0), false, 1, Some(s), map[s := Reading(None, None)]));
  }

  /** The run is possible and ends with the chain's lock held for good. */
  lemma CallFailureSticks(s: Sid, c: Chain)
    ensures Run(CallFailsRun(s, c)).Some? && StuckOn(Run(CallFailsRun(s, c)).value, s, c)
  {
    var r := CallFailsRun(s, c);
    SoloLocks(s, c);
    assert r[..7] == r[..6] + [r[6]];
    RunSnoc(r[..6], r[6]);
    assert r[..8] == r[..7] + [r[7]];
    RunSnoc(r[..7], r[7]);
    assert r[..9] == r[..8] + [r[8]];
    RunSnoc(r[..8], r[8]);
    assert r[..10] == r[..9] + [r[9]];
    RunSnoc(r[..9], r[9]);
    assert r == r[..10] + [r[10]];
    RunSnoc(r[..10], r[10]);
  }
}
