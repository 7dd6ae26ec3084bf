/** The log listener: polls ranges of blocks, hands their logs over, and remembers how far it
    got, across errors, lagging nodes, restarts and crashes. */
module Listener {
  import opened Wrappers
  import opened Numbers

  const MAX_GET_LOGS_RANGE := 2000

  datatype Log = Log(block: nat, id: nat)

  /** The contract's logs in the order of the chain, the future included. */
  type Chain = seq<Log>

  function FilterLogs(chain: Chain, lo: nat, hi: nat): (logs: seq<Log>)
    ensures forall l :: l in logs <==> l in chain && lo <= l.block <= hi
  {
    if chain == [] then []
    else
      var front, last := FilterLogs(chain[..|chain| - 1], lo, hi), chain[|chain| - 1];
      if lo <= last.block <= hi then front + [last] else front
  }

  /** The logs come in the order of the chain, each as often as it is there. */
  lemma {:induction false} FilterConcat(a: Chain, b: Chain, lo: nat, hi: nat)
    ensures FilterLogs(a + b, lo, hi) == FilterLogs(a, lo, hi) + FilterLogs(b, lo, hi)
  {
    if b == [] {
      assert a + b == a;
    } else {
      FilterConcat(a, b[..|b| - 1], lo, hi);
      assert (a + b)[..|a + b| - 1] == a + b[..|b| - 1];
    }
  }

  lemma FilterOne(l: Log, lo: nat, hi: nat)
    ensures FilterLogs([l], lo, hi) == if lo <= l.block <= hi then [l] else []
  {
  }

  /** What the outside does in one poll. The handler accepts the first `accepted` logs and fails
      on the next one. */
  datatype Env = Env(latest: Result<nat>, filterOk: bool, accepted: nat, put: Outcome)

  datatype State = State(
    listening: bool, start: nat, latest: nat, stored: Option<nat>, delivered: set<Log>)

  function Elements(logs: seq<Log>): set<Log>
  {
    set l | l in logs
  }

  /** The last block that a poll asks for. */
  function EndBlock(start: nat, latest: nat): nat
  {
    if start + MAX_GET_LOGS_RANGE < latest then start + MAX_GET_LOGS_RANGE else latest
  }

  /** One poll: the new state, and whether it succeeded. */
  function Poll(chain: Chain, s: State, env: Env): (State, bool)
  {
    if env.latest.Err? then (s.(latest := 0), false)
    else
      var latest := env.latest.value;
      var s := s.(latest := latest);
      if latest == s.start then (s, true)
      else if !env.filterOk then (s, false)
      else
        var end := EndBlock(s.start, latest);
        var logs := FilterLogs(chain, s.start, end);
        if env.accepted < |logs| then
          (s.(delivered := s.delivered + Elements(logs[..env.accepted])), false)
        else
          var s := s.(delivered := s.delivered + Elements(logs));
          match env.put
          case Committed => (s.(stored := Some(end), start := end), true)
          case Refused => (s, false)
          case Unacknowledged => (s.(stored := Some(end)), false)
  }

  function LastIndexed(stored: Option<nat>): nat
  {
    if stored.Some? then stored.value else 0
  }

  /** Where Listen begins, given the object's own start block. */
  function StartBlock(initialBlock: nat, stored: Option<nat>, start: nat): nat
  {
    if LastIndexed(stored) > start then LastIndexed(stored) else initialBlock
  }

  // ----- the listener object -----

  /** The one block that the database keeps for a chain. Listeners of other contracts on the same
      chain may share it. */
  class BlockStore {
    var latest: Option<nat>

    constructor (latest: Option<nat>)
      ensures this.latest == latest
    {
      this.latest := latest;
    }

    method PutLatestBlock(height: nat, put: Outcome) returns (ok: bool)
      modifies this
      ensures latest == if put.Refused? then old(latest) else Some(height)
      ensures ok <==> put.Committed?
    {
      if !put.Refused? {
        latest := Some(height);
      }
      ok := put.Committed?;
    }
  }

  class ChainListener {
    const initialBlock: nat
    const store: BlockStore
    var listening: bool
    var startBlock: nat
    var latestBlock: nat
    /** What the handler has accepted. */
    ghost var delivered: set<Log>

    ghost function Now(): State
      reads this, store
    {
      State(listening, startBlock, latestBlock, store.latest, delivered)
    }

    constructor (store: BlockStore, initialBlock: nat)
      ensures this.store == store && this.initialBlock == initialBlock
      ensures Now() == State(false, 0, 0, store.latest, {})
    {
      this.store, this.initialBlock := store, initialBlock;
      listening, startBlock, latestBlock, delivered := false, 0, 0, {};
    }

    /** The beginning of Listen. An error leaves the zero start block behind. */
    method GetMetadata(ok: bool) returns (started: bool)
      modifies this
      ensures started == ok && Now() == Listen(initialBlock, old(Now()), ok)
    {
      if !ok {
        startBlock := 0;
        return false;
      }
      var lastIndexed := if store.latest.Some? then store.latest.value else 0;
      if lastIndexed > startBlock {
        startBlock := lastIndexed;
      } else {
        startBlock := initialBlock;
      }
      listening := true;
      started := true;
    }

    method DoPoll(chain: Chain, env: Env) returns (ok: bool)
      modifies this, store
      ensures (Now(), ok) == Poll(chain, old(Now()), env)
    {
      if env.latest.Err? {
        latestBlock := 0;
        return false;
      }
      latestBlock := env.latest.value;
      if latestBlock == startBlock {
        return true;
      }
      var endBlock, lastUnconfirmedBlock := latestBlock, latestBlock;
      if startBlock + MAX_GET_LOGS_RANGE < latestBlock {
        endBlock := startBlock + MAX_GET_LOGS_RANGE;
        lastUnconfirmedBlock := endBlock;
      }
      if !env.filterOk {
        return false;
      }
      var logs := FilterLogs(chain, startBlock, endBlock);
      for i := 0 to |logs|
        invariant i <= env.accepted
        invariant Now() == old(Now()).(latest := latestBlock, delivered := delivered)
        invariant latestBlock == env.latest.value
        invariant delivered == old(delivered) + Elements(logs[..i])
      {
        if i == env.accepted {
          return false;
        }
        delivered := delivered + {logs[i]};
        assert logs[..i + 1] == logs[..i] + [logs[i]];
      }
      assert logs[..|logs|] == logs;
      var stored := store.PutLatestBlock(endBlock, env.put);
      if !stored {
        return false;
      }
      startBlock := lastUnconfirmedBlock;
      ok := true;
    }
  }

  function Listen(initialBlock: nat, s: State, ok: bool): State
  {
    if !ok then s.(start := 0)
    else s.(listening := true, start := StartBlock(initialBlock, s.stored, s.start))
  }

  // ----- runs -----

  datatype Event =
    | Begin(ok: bool)   // Listen
    | Tick(env: Env)    // doPoll
    | Cancel            // the context ends, the object stays
    | Crash             // a new object on the same store
    | OtherPut(height: nat)   // a listener of another contract on the chain stores its own block

  predicate Possible(s: State, ev: Event)
  {
    match ev
    case Begin(_) => !s.listening
    case Tick(_) => s.listening
    case Cancel => true
    case Crash => true
    case OtherPut(_) => true
  }

  function Next(chain: Chain, initialBlock: nat, s: State, ev: Event): State
    requires Possible(s, ev)
  {
    match ev
    case Begin(ok) => Listen(initialBlock, s, ok)
    case Tick(env) => Poll(chain, s, env).0
    case Cancel => s.(listening := false)
    case Crash => s.(listening := false, start := 0, latest := 0)
    case OtherPut(height) => s.(stored := Some(height))
  }

  function Run(chain: Chain, initialBlock: nat, stored: Option<nat>, run: seq<Event>): Option<State>
  {
    if run == [] then Some(State(false, 0, 0, stored, {}))
    else
      var prev := Run(chain, initialBlock, stored, run[..|run| - 1]);
      if prev.Some? && Possible(prev.value, run[|run| - 1])
      then Some(Next(chain, initialBlock, prev.value, run[|run| - 1])) else None
  }

  /** All logs from block `lo` up to but excluding `hi` were handed over. */
  ghost predicate Covered(chain: Chain, delivered: set<Log>, lo: nat, hi: nat)
  {
    forall l :: l in chain && lo <= l.block < hi ==> l in delivered
  }

  ghost predicate Inv(chain: Chain, first: nat, s: State)
  {
    && Covered(chain, s.delivered, first, LastIndexed(s.stored))
    && (s.listening ==> Covered(chain, s.delivered, first, s.start))
  }

  lemma PollKeeps(chain: Chain, first: nat, s: State, env: Env)
    requires Inv(chain, first, s) && s.listening
    ensures Inv(chain, first, Poll(chain, s, env).0)
  {
    var s' := Poll(chain, s, env).0;
    forall l | l in chain && first <= l.block < s'.start
      ensures l in s'.delivered
    {
      assert l.block < s.start ==> l in s.delivered;
    }
  }

  /** Where the very first Listen began. */
  function First(initialBlock: nat, stored: Option<nat>): nat
  {
    StartBlock(initialBlock, stored, 0)
  }

  /** What another listener stores is not beyond what this one has covered: its own start block,
      or the block that was stored before. */
  predicate NotAhead(s: State, ev: Event)
  {
    ev.OtherPut? ==> ev.height <= LastIndexed(s.stored) || (s.listening && ev.height <= s.start)
  }

  /** No other listener of the chain ever gets ahead of this one. */
  predicate NeverAhead(chain: Chain, initialBlock: nat, stored: Option<nat>, run: seq<Event>)
  {
    if run == [] then true
    else
      var prev := Run(chain, initialBlock, stored, run[..|run| - 1]);
      && NeverAhead(chain, initialBlock, stored, run[..|run| - 1])
      && (prev.Some? ==> NotAhead(prev.value, run[|run| - 1]))
  }

  /** No other listener uses the chain's entry in the store. */
  predicate Private(run: seq<Event>)
  {
    forall i :: 0 <= i < |run| ==> !run[i].OtherPut?
  }

  lemma {:induction false} PrivateIsNeverAhead(
      chain: Chain, initialBlock: nat, stored: Option<nat>, run: seq<Event>)
    requires Private(run)
    ensures NeverAhead(chain, initialBlock, stored, run)
  {
    if run == [] {
    } else {
      PrivateIsNeverAhead(chain, initialBlock, stored, run[..|run| - 1]);
    }
  }

  lemma {:induction false} RunInv(chain: Chain, initialBlock: nat, stored: Option<nat>, run: seq<Event>)
    requires initialBlock <= First(initialBlock, stored)
    requires Run(chain, initialBlock, stored, run).Some? && NeverAhead(chain, initialBlock, stored, run)
    ensures Inv(chain, First(initialBlock, stored), Run(chain, initialBlock, stored, run).value)
  {
    if run == [] {
    } else {
      RunInv(chain, initialBlock, stored, run[..|run| - 1]);
      var prev, ev := Run(chain, initialBlock, stored, run[..|run| - 1]).value, run[|run| - 1];
      if ev.Tick? {
        PollKeeps(chain, First(initialBlock, stored), prev, ev.env);
      }
    }
  }

  /** At least once: while it listens, every log from where it first began up to but excluding its
      start block has been handed over, if the configured initial block is not above the
      block that the store held at first, and no other listener of the chain that shares the store
      ever gets ahead. */
  lemma NothingMissed(chain: Chain, initialBlock: nat, stored: Option<nat>, run: seq<Event>)
    requires initialBlock <= First(initialBlock, stored)
    requires Run(chain, initialBlock, stored, run).Some? && NeverAhead(chain, initialBlock, stored, run)
    ensures var s := Run(chain, initialBlock, stored, run).value;
      s.listening ==> Covered(chain, s.delivered, First(initialBlock, stored), s.start)
  {
    RunInv(chain, initialBlock, stored, run);
  }

  /** Otherwise not: an initial block above the stored one is jumped to when the same object
      listens again, and the blocks in between are never asked for. */
  lemma InitialBlockSkips(initialBlock: nat, stored: Option<nat>)
    requires First(initialBlock, stored) < initialBlock
    ensures var first := First(initialBlock, stored);
            var chain, run := [Log(first, 0)], [Begin(true), Cancel, Begin(true)];
      && Run(chain, initialBlock, stored, run).Some?
      && var s := Run(chain, initialBlock, stored, run).value;
         s.listening && !Covered(chain, s.delivered, first, s.start)
  {
    var first := First(initialBlock, stored);
    var chain := [Log(first, 0)];
    var run := [Begin(true), Cancel, Begin(true)];
    assert run[..2] == [Begin(true), Cancel] && run[..2][..1] == [Begin(true)] && run[..1][..0] == [];
    var s0 := State(false, 0, 0, stored, {});
    var s1 := s0.(listening := true, start := first);
    var s2 := s1.(listening := false);
    assert Run(chain, initialBlock, stored, [Begin(true)]) == Some(s1);
    assert Run(chain, initialBlock, stored, [Begin(true), Cancel]) == Some(s2);
    assert chain[0] in chain;
  }

  /** A listener that cannot filter logs while another one of the chain polls up to block `h`. */
  function OvertakenRun(h: nat): seq<Event>
  {
    [Begin(true), Tick(Env(Ok(h), false, 0, Refused)), OtherPut(h), Crash, Begin(true)]
  }

  lemma RunSnoc(
      chain: Chain, initialBlock: nat, stored: Option<nat>, run: seq<Event>, ev: Event, s: State)
    requires Run(chain, initialBlock, stored, run) == Some(s) && Possible(s, ev)
    ensures Run(chain, initialBlock, stored, run + [ev]) == Some(Next(chain, initialBlock, s, ev))
  {
    assert (run + [ev])[..|run|] == run;
  }

  /** A shared store skips: after a crash the listener begins where the other one was, and its own
      logs before that are never asked for, whatever the store held and wherever it began. */
  lemma SharedStoreSkips(initialBlock: nat, stored: Option<nat>, h: nat)
    requires First(initialBlock, stored) < h
    ensures var first := First(initialBlock, stored);
            var chain, run := [Log(first, 0)], OvertakenRun(h);
      && Run(chain, initialBlock, stored, run).Some?
      && var s := Run(chain, initialBlock, stored, run).value;
         s.listening && s.start == h && !Covered(chain, s.delivered, first, s.start)
  {
    var first := First(initialBlock, stored);
    var chain, run := [Log(first, 0)], OvertakenRun(h);
    var s0 := State(false, 0, 0, stored, {});
    var s1 := s0.(listening := true, start := first);
    var s2 := s1.(latest := h);
    var s3 := s2.(stored := Some(h));
    var s4 := State(false, 0, 0, Some(h), {});
    RunSnoc(chain, initialBlock, stored, run[..0], run[0], s0);
    assert run[..1] == run[..0] + [run[0]];
    RunSnoc(chain, initialBlock, stored, run[..1], run[1], s1);
    assert run[..2] == run[..1] + [run[1]];
    RunSnoc(chain, initialBlock, stored, run[..2], run[2], s2);
    assert run[..3] == run[..2] + [run[2]];
    RunSnoc(chain, initialBlock, stored, run[..3], run[3], s3);
    assert run[..4] == run[..3] + [run[3]];
    RunSnoc(chain, initialBlock, stored, run[..4], run[4], s4);
    assert run == run[..4] + [run[4]];
    assert chain[0] in chain;
  }

  /** The other listener's put is a poll like any other: one that listens from the same block on
      stores a head within its range. */
  lemma OtherPutIsPoll(chain: Chain, other: State, h: nat)
    requires other.start < h <= other.start + MAX_GET_LOGS_RANGE
    ensures Poll(chain, other, Env(Ok(h), true, |chain|, Committed)).0.stored == Some(h)
  {
    FilterShorter(chain, other.start, h);
  }

  /** Over all runs, in which others use the chain's entry of the store only if it is shared. */
  ghost predicate NeverMisses(initialBlock: nat, stored: Option<nat>, shared: bool)
  {
    forall chain: Chain, run: seq<Event> ::
      var s := Run(chain, initialBlock, stored, run);
      (shared || Private(run)) && s.Some? && s.value.listening ==>
        Covered(chain, s.value.delivered, First(initialBlock, stored), s.value.start)
  }

  /** Together: no run misses anything exactly when no other listener of the chain uses the store
      and the store is empty or not behind the initial block. */
  lemma NeverMissesIff(initialBlock: nat, stored: Option<nat>, shared: bool)
    ensures NeverMisses(initialBlock, stored, shared)
       <==> !shared && (LastIndexed(stored) == 0 || initialBlock <= LastIndexed(stored))
  {
    if shared {
      SharedStoreSkips(initialBlock, stored, First(initialBlock, stored) + 1);
    } else if initialBlock <= First(initialBlock, stored) {
      forall chain: Chain, run: seq<Event> | Private(run) && Run(chain, initialBlock, stored, run).Some?
        ensures var s := Run(chain, initialBlock, stored, run).value;
          s.listening ==> Covered(chain, s.delivered, First(initialBlock, stored), s.start)
      {
        PrivateIsNeverAhead(chain, initialBlock, stored, run);
        NothingMissed(chain, initialBlock, stored, run);
      }
    } else {
      InitialBlockSkips(initialBlock, stored);
      assert Private([Begin(true), Cancel, Begin(true)]);
    }
  }

  /** The ranges: never more than 2001 blocks, next time from the start block on, and exactly 2000
      further for a successful poll that is more than 2000 behind. */
  lemma RangeOfPoll(chain: Chain, s: State, env: Env)
    requires env.latest.Ok? && Poll(chain, s, env).1
    ensures var s', latest := Poll(chain, s, env).0, env.latest.value;
      && s'.start == EndBlock(s.start, latest)
      && EndBlock(s.start, latest) + 1 <= s.start + 2001
      && (s.start + 2000 < latest ==> s'.start == s.start + 2000)
      && (latest != s.start ==> s'.stored == Some(s'.start))
      && (latest != s.start ==>
            s'.delivered == s.delivered + Elements(FilterLogs(chain, s.start, s'.start)))
  {
  }

  /** Polls that ask for a range hand over its logs, up to the first one that the handler refuses. */
  predicate Asks(s: State, env: Env)
  {
    env.latest.Ok? && env.latest.value != s.start && env.filterOk
  }

  predicate HandlesAll(chain: Chain, s: State, env: Env)
    requires env.latest.Ok?
  {
    env.accepted >= |FilterLogs(chain, s.start, EndBlock(s.start, env.latest.value))|
  }

  /** When a poll fails, and that it then does not move on; a put that fails leaves the start where
      it was, even if the store has taken it. */
  lemma PollOutcome(chain: Chain, s: State, env: Env)
    ensures Poll(chain, s, env).1 <==>
      && env.latest.Ok?
      && (env.latest.value == s.start || (env.filterOk && HandlesAll(chain, s, env) && env.put.Committed?))
    ensures !Poll(chain, s, env).1 ==> Poll(chain, s, env).0.start == s.start
    ensures Poll(chain, s, env).0.latest == if env.latest.Ok? then env.latest.value else 0
    ensures !Asks(s, env) ==>
      Poll(chain, s, env).0.delivered == s.delivered && Poll(chain, s, env).0.stored == s.stored
    ensures Asks(s, env) ==>
      var logs := FilterLogs(chain, s.start, EndBlock(s.start, env.latest.value));
      Poll(chain, s, env).0.delivered == s.delivered + Elements(logs[..Min(env.accepted, |logs|)])
    ensures Asks(s, env) ==>
      var taken := HandlesAll(chain, s, env) && !env.put.Refused?;
      Poll(chain, s, env).0.stored == if taken then Some(EndBlock(s.start, env.latest.value)) else s.stored
  {
    if Asks(s, env) {
      var logs := FilterLogs(chain, s.start, EndBlock(s.start, env.latest.value));
      assert logs[..|logs|] == logs;
    }
  }

  /** A Listen that fails forgets where the object was: the next one begins as a new object would. */
  lemma FailedListenForgets(initialBlock: nat, s: State)
    ensures var again := Listen(initialBlock, Listen(initialBlock, s, false), true);
      again.start == First(initialBlock, s.stored)
      && again.stored == s.stored && again.delivered == s.delivered
  {
  }

  /** `n` successful polls of a chain whose head is at `head`. */
  function Polls(chain: Chain, s: State, head: nat, n: nat): State
  {
    if n == 0 then s
    else Poll(chain, Polls(chain, s, head, n - 1), Env(Ok(head), true, |chain|, Committed)).0
  }

  lemma {:induction false} FilterShorter(chain: Chain, lo: nat, hi: nat)
    ensures |FilterLogs(chain, lo, hi)| <= |chain|
  {
    if chain == [] {
    } else {
      FilterShorter(chain[..|chain| - 1], lo, hi);
    }
  }

  /** Catching up: as many successful polls as there are ranges of 2000 reach the head. */
  lemma {:induction false} CatchesUp(chain: Chain, s: State, head: nat, n: nat)
    requires s.start <= head
    ensures Polls(chain, s, head, n).start == Min(s.start + 2000 * n, head)
  {
    if n == 0 {
    } else {
      CatchesUp(chain, s, head, n - 1);
      var prev := Polls(chain, s, head, n - 1);
      FilterShorter(chain, prev.start, EndBlock(prev.start, head));
    }
  }
}
