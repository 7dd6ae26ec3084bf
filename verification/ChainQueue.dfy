/** One pass over the pending transactions of a chain: each is bumped on its own goroutine, the
    results are gathered as they come, sorted by nonce and sent together. */
module ChainQueue {
  import opened Wrappers
  import opened Numbers
  import opened GasPrice

  /** At most one transaction per nonce, in the order of the nonces. */
  predicate Ordered(txs: seq<Tx>)
  {
    forall i, j :: 0 <= i < j < |txs| ==> txs[i].payload.nonce < txs[j].payload.nonce
  }

  /** The bumped versions of the transactions that have not been mined, in order, or an error if
      one of them cannot be bumped. */
  function Queue(txs: seq<Tx>, passes: seq<Pass>, currentNonce: nat, cfg: Config): Result<seq<Tx>>
    requires |passes| == |txs|
  {
    if txs == [] then Ok([])
    else
      var n := |txs| - 1;
      var front := Queue(txs[..n], passes[..n], currentNonce, cfg);
      if txs[n].payload.nonce < currentNonce then front
      else
        var last := BumpTx(txs[n], passes[n], cfg);
        if front.Ok? && last.Ok? then Ok(front.value + [last.value]) else Err
  }

  lemma PayloadKept(tx: Tx, pass: Pass, cfg: Config)
    requires BumpTx(tx, pass, cfg).Ok?
    ensures BumpTx(tx, pass, cfg).value.payload == tx.payload
  {
  }

  /** Transaction `i` is still pending and comes out as `t`. */
  predicate ComesOut(txs: seq<Tx>, passes: seq<Pass>, currentNonce: nat, cfg: Config, i: nat, t: Tx)
    requires i < |txs| == |passes|
  {
    txs[i].payload.nonce >= currentNonce && BumpTx(txs[i], passes[i], cfg) == Ok(t)
  }

  /** The queue holds what comes out, in the order of the nonces. */
  lemma {:induction false} QueueElements(txs: seq<Tx>, passes: seq<Pass>, currentNonce: nat, cfg: Config)
    requires |passes| == |txs| && Ordered(txs) && Queue(txs, passes, currentNonce, cfg).Ok?
    ensures var q := Queue(txs, passes, currentNonce, cfg).value;
      && Ordered(q)
      && (forall t :: t in q <==> exists i :: 0 <= i < |txs| && ComesOut(txs, passes, currentNonce, cfg, i, t))
      && (forall t :: t in q ==> txs != [] && t.payload.nonce <= txs[|txs| - 1].payload.nonce)
  {
    if txs == [] {
    } else {
      var n := |txs| - 1;
      QueueElements(txs[..n], passes[..n], currentNonce, cfg);
      var front, q := Queue(txs[..n], passes[..n], currentNonce, cfg).value, Queue(txs, passes, currentNonce, cfg).value;
      forall i, t | 0 <= i < n
        ensures ComesOut(txs, passes, currentNonce, cfg, i, t)
           <==> ComesOut(txs[..n], passes[..n], currentNonce, cfg, i, t)
      {
      }
      if txs[n].payload.nonce >= currentNonce {
        PayloadKept(txs[n], passes[n], cfg);
        assert ComesOut(txs, passes, currentNonce, cfg, n, q[|q| - 1]);
        assert q == front + [q[|q| - 1]];
      }
    }
  }

  lemma {:induction false} QueueFails(txs: seq<Tx>, passes: seq<Pass>, currentNonce: nat, cfg: Config)
    requires |passes| == |txs|
    ensures Queue(txs, passes, currentNonce, cfg).Err? <==> exists i ::
      0 <= i < |txs| && txs[i].payload.nonce >= currentNonce && BumpTx(txs[i], passes[i], cfg).Err?
  {
    if txs == [] {
    } else {
      var n := |txs| - 1;
      QueueFails(txs[..n], passes[..n], currentNonce, cfg);
      if i :| 0 <= i < n && txs[i].payload.nonce >= currentNonce && BumpTx(txs[i], passes[i], cfg).Err? {
        assert txs[..n][i] == txs[i] && passes[..n][i] == passes[i];
      }
    }
  }

  /** One pending transaction of a batch whose bumped cap is above the maximum: as long as its
      interval has not elapsed it goes out again as it is, and from then on it keeps the whole batch
      from being sent. */
  lemma OneBlocksAll(txs: seq<Tx>, passes: seq<Pass>, currentNonce: nat, cfg: Config, i: nat)
    requires |passes| == |txs| && i < |txs| && txs[i].payload.nonce >= currentNonce
    requires cfg.bump(Cap(txs[i].pricing)) > cfg.maxGasPrice
    ensures BumpTx(txs[i], passes[i], cfg) == if passes[i].elapsed then Err else Ok(txs[i])
    ensures passes[i].elapsed ==> Queue(txs, passes, currentNonce, cfg).Err?
  {
    CeilingIsFinal(NO_FEES, txs[i].pricing, passes[i].oracle, cfg);
    QueueFails(txs, passes, currentNonce, cfg);
  }

  // ----- sorting -----

  function InsertByNonce(q: seq<Tx>, t: Tx): seq<Tx>
  {
    if q == [] || q[|q| - 1].payload.nonce <= t.payload.nonce then q + [t]
    else InsertByNonce(q[..|q| - 1], t) + [q[|q| - 1]]
  }

  predicate NewNonce(q: seq<Tx>, t: Tx)
  {
    forall i :: 0 <= i < |q| ==> q[i].payload.nonce != t.payload.nonce
  }

  lemma {:induction false} InsertKeepsOrder(q: seq<Tx>, t: Tx)
    requires Ordered(q) && NewNonce(q, t)
    ensures Ordered(InsertByNonce(q, t))
    ensures forall u :: u in InsertByNonce(q, t) <==> u in q || u == t
  {
    if q != [] && q[|q| - 1].payload.nonce > t.payload.nonce {
      var front, last := q[..|q| - 1], q[|q| - 1];
      assert q == front + [last];
      InsertKeepsOrder(front, t);
      var r := InsertByNonce(front, t);
      assert forall i :: 0 <= i < |r| ==> r[i] in front || r[i] == t;
    }
  }

  method SortByNonce(q: seq<Tx>) returns (r: seq<Tx>)
    requires forall i, j :: 0 <= i < j < |q| ==> q[i].payload.nonce != q[j].payload.nonce
    ensures Ordered(r) && forall u :: u in r <==> u in q
  {
    r := [];
    for i := 0 to |q|
      invariant Ordered(r) && forall u :: u in r <==> u in q[..i]
    {
      assert forall j :: 0 <= j < |r| ==> r[j] in q[..i];
      InsertKeepsOrder(r, q[i]);
      r := InsertByNonce(r, q[i]);
      assert q[..i + 1] == q[..i] + [q[i]];
    }
  }

  function Elements(q: seq<Tx>): set<Tx>
  {
    set t | t in q
  }

  lemma FrontElements(q: seq<Tx>)
    requires Ordered(q) && q != []
    ensures Elements(q[..|q| - 1]) == Elements(q) - {q[|q| - 1]} && q[|q| - 1] in Elements(q)
  {
    assert q == q[..|q| - 1] + [q[|q| - 1]];
  }

  lemma EmptyElements(q: seq<Tx>)
    ensures Elements(q) == {} <==> q == []
  {
    if q != [] {
      assert q[0] in Elements(q);
    }
  }

  /** The last elements are the same, being the ones of the highest nonce. */
  lemma LastUnique(a: seq<Tx>, b: seq<Tx>)
    requires Ordered(a) && Ordered(b) && a != [] && b != [] && Elements(a) == Elements(b)
    ensures a[|a| - 1] == b[|b| - 1]
  {
    assert a[|a| - 1] in Elements(b) && b[|b| - 1] in Elements(a);
  }

  /** Nonces in order and the elements fix the sequence. */
  lemma {:induction false} OrderedUnique(a: seq<Tx>, b: seq<Tx>)
    requires Ordered(a) && Ordered(b) && Elements(a) == Elements(b)
    ensures a == b
    decreases |a|
  {
    EmptyElements(a);
    EmptyElements(b);
    if a == [] {
    } else {
      LastUnique(a, b);
      FrontElements(a);
      FrontElements(b);
      OrderedUnique(a[..|a| - 1], b[..|b| - 1]);
      assert a == a[..|a| - 1] + [a[|a| - 1]] && b == b[..|b| - 1] + [b[|b| - 1]];
    }
  }

  // ----- the pass -----

  predicate HaveConfirmed(txs: seq<Tx>, currentNonce: nat)
  {
    exists i :: 0 <= i < |txs| && txs[i].payload.nonce < currentNonce
  }

  /** What one pass sends. */
  function PassResult(txs: seq<Tx>, passes: seq<Pass>, currentNonce: nat, markOk: bool, cfg: Config): Result<seq<Tx>>
    requires |passes| == |txs|
  {
    if HaveConfirmed(txs, currentNonce) && !markOk then Err else Queue(txs, passes, currentNonce, cfg)
  }

  /** Whatever order the goroutines finish in, what is sent is the queue in nonce order. */
  method ChainPendingQueue(
      txs: seq<Tx>, passes: seq<Pass>, currentNonce: nat, markOk: bool, cfg: Config)
    returns (r: Result<seq<Tx>>, txsHaveConfirmed: bool)
    requires |passes| == |txs| && Ordered(txs)
    ensures txsHaveConfirmed <==> HaveConfirmed(txs, currentNonce)
    ensures r == PassResult(txs, passes, currentNonce, markOk, cfg)
  {
    txsHaveConfirmed := false;
    var pending: set<nat> := {};
    for i := 0 to |txs|
      invariant txsHaveConfirmed <==> exists j :: 0 <= j < i && txs[j].payload.nonce < currentNonce
      invariant pending == set j | 0 <= j < i && txs[j].payload.nonce >= currentNonce
    {
      if txs[i].payload.nonce < currentNonce {
        txsHaveConfirmed := true;
      } else {
        pending := pending + {i};
      }
    }
    var failed := txsHaveConfirmed && !markOk;
    var reprocessQueue := RunAll(txs, passes, currentNonce, cfg, pending);
    QueueFails(txs, passes, currentNonce, cfg);
    if failed || reprocessQueue.Err? {
      return Err, txsHaveConfirmed;
    }
    var sorted := SortByNonce(reprocessQueue.value);
    QueueElements(txs, passes, currentNonce, cfg);
    assert Elements(sorted) == Elements(Queue(txs, passes, currentNonce, cfg).value);
    OrderedUnique(sorted, Queue(txs, passes, currentNonce, cfg).value);
    r := Ok(sorted);
  }

  lemma OthersHaveOtherNonces(
      txs: seq<Tx>, passes: seq<Pass>, currentNonce: nat, cfg: Config, done: set<nat>, i: nat, q: seq<Tx>)
    requires |passes| == |txs| && Ordered(txs) && i < |txs| && i !in done
    requires forall j :: j in done ==> j < |txs|
    requires forall t :: t in q ==> exists j :: j in done && ComesOut(txs, passes, currentNonce, cfg, j, t)
    ensures NewNonce(q, txs[i])
  {
    forall a | 0 <= a < |q|
      ensures q[a].payload.nonce != txs[i].payload.nonce
    {
      assert q[a] in q;
      var j :| j in done && ComesOut(txs, passes, currentNonce, cfg, j, q[a]);
      PayloadKept(txs[j], passes[j], cfg);
    }
  }

  /** The goroutines, one for each pending transaction, in any order of finishing. */
  method RunAll(txs: seq<Tx>, passes: seq<Pass>, currentNonce: nat, cfg: Config, pending: set<nat>)
    returns (q: Result<seq<Tx>>)
    requires |passes| == |txs| && Ordered(txs)
    requires pending == set i | 0 <= i < |txs| && txs[i].payload.nonce >= currentNonce
    ensures q.Err? <==> exists i :: i in pending && BumpTx(txs[i], passes[i], cfg).Err?
    ensures q.Ok? ==>
      && (forall t :: t in q.value <==> exists i :: 0 <= i < |txs| && ComesOut(txs, passes, currentNonce, cfg, i, t))
      && (forall a, b :: 0 <= a < b < |q.value| ==> q.value[a].payload.nonce != q.value[b].payload.nonce)
  {
    var left, queue: seq<Tx>, failed := pending, [], false;
    while left != {}
      invariant left <= pending
      invariant failed <==> exists i :: i in pending - left && BumpTx(txs[i], passes[i], cfg).Err?
      invariant forall t :: t in queue ==> exists i :: i in pending - left && ComesOut(txs, passes, currentNonce, cfg, i, t)
      invariant forall i :: i in pending - left && BumpTx(txs[i], passes[i], cfg).Ok? ==>
                  BumpTx(txs[i], passes[i], cfg).value in queue
      invariant forall a, b :: 0 <= a < b < |queue| ==> queue[a].payload.nonce != queue[b].payload.nonce
      decreases |left|
    {
      var i :| i in left;
      left := left - {i};
      var t := BumpTx(txs[i], passes[i], cfg);
      if t.Err? {
        failed := true;
      } else {
        PayloadKept(txs[i], passes[i], cfg);
        OthersHaveOtherNonces(txs, passes, currentNonce, cfg, pending - left - {i}, i, queue);
        assert ComesOut(txs, passes, currentNonce, cfg, i, t.value);
        queue := queue + [t.value];
      }
    }
    q := if failed then Err else Ok(queue);
  }

  // ----- one batch -----

  /** `mark` is what becomes of marking the transactions below the current nonce; `kept` tells that
      the database takes the replacements, before or after they are sent. */
  datatype ChainPass = ChainPass(passes: seq<Pass>, currentNonce: nat, mark: Outcome, kept: bool)

  predicate Succeeds(txs: seq<Tx>, p: ChainPass, cfg: Config)
    requires |p.passes| == |txs|
  {
    PassResult(txs, p.passes, p.currentNonce, p.mark.Committed?, cfg).Ok? && p.kept
  }

  /** Replacements are stored only if the whole pass succeeds. */
  function Replaced(txs: seq<Tx>, p: ChainPass, cfg: Config, i: nat): Tx
    requires i < |txs| == |p.passes|
  {
    if Succeeds(txs, p, cfg) && txs[i].payload.nonce >= p.currentNonce && BumpTx(txs[i], p.passes[i], cfg).Ok?
    then BumpTx(txs[i], p.passes[i], cfg).value else txs[i]
  }

  function StoredAfter(txs: seq<Tx>, p: ChainPass, cfg: Config): (stored: seq<Tx>)
    requires |p.passes| == |txs|
    ensures |stored| == |txs|
  {
    seq(|txs|, i requires 0 <= i < |txs| => Replaced(txs, p, cfg, i))
  }

  function Pending(txs: seq<Tx>, currentNonce: nat): seq<Tx>
  {
    if txs == [] then []
    else
      var front, last := Pending(txs[..|txs| - 1], currentNonce), txs[|txs| - 1];
      if last.payload.nonce < currentNonce then front else front + [last]
  }

  lemma {:induction false} QueueIsPending(txs: seq<Tx>, passes: seq<Pass>, currentNonce: nat, cfg: Config, stored: seq<Tx>)
    requires |passes| == |txs| == |stored| && Queue(txs, passes, currentNonce, cfg).Ok?
    requires forall i :: 0 <= i < |txs| ==> stored[i].payload.nonce == txs[i].payload.nonce
    requires forall i :: 0 <= i < |txs| && txs[i].payload.nonce >= currentNonce ==>
      BumpTx(txs[i], passes[i], cfg) == Ok(stored[i])
    ensures Queue(txs, passes, currentNonce, cfg).value == Pending(stored, currentNonce)
  {
    if txs == [] {
    } else {
      var n := |txs| - 1;
      QueueIsPending(txs[..n], passes[..n], currentNonce, cfg, stored[..n]);
    }
  }

  lemma ReplacedKeepsPayload(txs: seq<Tx>, p: ChainPass, cfg: Config, i: nat)
    requires i < |txs| == |p.passes|
    ensures StoredAfter(txs, p, cfg)[i].payload == txs[i].payload
  {
    if BumpTx(txs[i], p.passes[i], cfg).Ok? {
      PayloadKept(txs[i], p.passes[i], cfg);
    }
  }

  /** What is sent is what is stored, of the transactions not yet mined. */
  lemma SentIsStored(txs: seq<Tx>, p: ChainPass, cfg: Config)
    requires |p.passes| == |txs| && Succeeds(txs, p, cfg)
    ensures PassResult(txs, p.passes, p.currentNonce, p.mark.Committed?, cfg)
         == Ok(Pending(StoredAfter(txs, p, cfg), p.currentNonce))
  {
    var stored := StoredAfter(txs, p, cfg);
    QueueFails(txs, p.passes, p.currentNonce, cfg);
    forall i | 0 <= i < |txs|
      ensures stored[i].payload.nonce == txs[i].payload.nonce
    {
      ReplacedKeepsPayload(txs, p, cfg, i);
    }
    QueueIsPending(txs, p.passes, p.currentNonce, cfg, stored);
  }

  // ----- the stored transactions of a chain, pass after pass -----

  /** The limit of the query for a chain's pending transactions. */
  const MAX_RESULTS_PER_CHAIN := 1

  /** The latest attempt for each nonce, in the order of the nonces. The first `marked` of them are
      marked as replaced or confirmed. */
  datatype Table = Table(txs: seq<Tx>, marked: nat)

  predicate Valid(t: Table)
  {
    Ordered(t.txs) && t.marked <= |t.txs|
  }

  function BatchEnd(t: Table, limit: nat): nat
  {
    Min(t.marked + limit, |t.txs|)
  }

  /** What a pass is given: the first transactions that are not marked, up to the limit. */
  function Batch(t: Table, limit: nat): (batch: seq<Tx>)
    requires t.marked <= |t.txs|
    ensures |batch| == BatchEnd(t, limit) - t.marked
  {
    t.txs[t.marked..BatchEnd(t, limit)]
  }

  predicate InBatch(t: Table, limit: nat, i: nat)
  {
    t.marked <= i < BatchEnd(t, limit)
  }

  /** How many transactions have a nonce below `n`. */
  function CountBelow(txs: seq<Tx>, n: nat): (count: nat)
    ensures count <= |txs|
  {
    if txs == [] then 0
    else if txs[|txs| - 1].payload.nonce < n then |txs|
    else CountBelow(txs[..|txs| - 1], n)
  }

  lemma {:induction false} CountBelowAt(txs: seq<Tx>, n: nat, i: nat)
    requires Ordered(txs) && i < |txs|
    ensures txs[i].payload.nonce < n <==> i < CountBelow(txs, n)
  {
    var last := |txs| - 1;
    if txs[last].payload.nonce < n {
      assert i < last ==> txs[i].payload.nonce < txs[last].payload.nonce;
    } else if i < last {
      CountBelowAt(txs[..last], n, i);
    }
  }

  datatype Event = Submitted(tx: Tx) | Passed(p: ChainPass)

  /** A new transaction has a higher nonce than all others of its chain. */
  predicate Possible(t: Table, ev: Event, limit: nat)
  {
    && t.marked <= |t.txs|
    && match ev
       case Submitted(tx) => forall i :: 0 <= i < |t.txs| ==> t.txs[i].payload.nonce < tx.payload.nonce
       case Passed(p) => |p.passes| == |Batch(t, limit)|
  }

  /** Once one of the batch is below the current nonce, all that are get marked. */
  function MarkedAfter(t: Table, p: ChainPass, limit: nat): nat
    requires t.marked <= |t.txs|
  {
    if HaveConfirmed(Batch(t, limit), p.currentNonce) && !p.mark.Refused?
    then Max(t.marked, CountBelow(t.txs, p.currentNonce)) else t.marked
  }

  function Next(t: Table, ev: Event, limit: nat, cfg: Config): Table
    requires Possible(t, ev, limit)
  {
    match ev
    case Submitted(tx) => t.(txs := t.txs + [tx])
    case Passed(p) =>
      Table(t.txs[..t.marked] + StoredAfter(Batch(t, limit), p, cfg) + t.txs[BatchEnd(t, limit)..],
            MarkedAfter(t, p, limit))
  }

  function Run(t: Table, run: seq<Event>, limit: nat, cfg: Config): Option<Table>
  {
    if run == [] then Some(t)
    else
      var prev := Run(t, run[..|run| - 1], limit, cfg);
      if prev.Some? && Possible(prev.value, run[|run| - 1], limit)
      then Some(Next(prev.value, run[|run| - 1], limit, cfg)) else None
  }

  /** A pass replaces what is in its batch and nothing else. */
  lemma PassedAt(t: Table, p: ChainPass, limit: nat, cfg: Config, i: nat)
    requires Possible(t, Passed(p), limit) && i < |t.txs|
    ensures |Next(t, Passed(p), limit, cfg).txs| == |t.txs|
    ensures Next(t, Passed(p), limit, cfg).txs[i]
         == if InBatch(t, limit, i) then Replaced(Batch(t, limit), p, cfg, i - t.marked) else t.txs[i]
  {
  }

  lemma PassedKeepsPayload(t: Table, p: ChainPass, limit: nat, cfg: Config, i: nat)
    requires Possible(t, Passed(p), limit) && i < |t.txs|
    ensures |Next(t, Passed(p), limit, cfg).txs| == |t.txs|
    ensures Next(t, Passed(p), limit, cfg).txs[i].payload == t.txs[i].payload
  {
    PassedAt(t, p, limit, cfg, i);
    if InBatch(t, limit, i) {
      ReplacedKeepsPayload(Batch(t, limit), p, cfg, i - t.marked);
    }
  }

  lemma NextKeepsOrder(t: Table, ev: Event, limit: nat, cfg: Config)
    requires Valid(t) && Possible(t, ev, limit)
    ensures Valid(Next(t, ev, limit, cfg)) && |t.txs| <= |Next(t, ev, limit, cfg).txs|
  {
    if ev.Passed? {
      assert |Next(t, ev, limit, cfg).txs| == |t.txs|;
      forall i | 0 <= i < |t.txs|
        ensures Next(t, ev, limit, cfg).txs[i].payload == t.txs[i].payload
      {
        PassedKeepsPayload(t, ev.p, limit, cfg, i);
      }
    }
  }

  /** The transactions stay one per nonce and in order, which the next pass relies on. */
  lemma {:induction false} RunKeepsOrder(t: Table, run: seq<Event>, limit: nat, cfg: Config)
    requires Valid(t) && Run(t, run, limit, cfg).Some?
    ensures Valid(Run(t, run, limit, cfg).value) && |t.txs| <= |Run(t, run, limit, cfg).value.txs|
  {
    if run == [] {
    } else {
      RunKeepsOrder(t, run[..|run| - 1], limit, cfg);
      NextKeepsOrder(Run(t, run[..|run| - 1], limit, cfg).value, run[|run| - 1], limit, cfg);
    }
  }

  /** The passes that count for transaction `i`: those that succeeded with it pending in their
      batch. */
  function PassesOf(t: Table, run: seq<Event>, limit: nat, cfg: Config, i: nat): seq<Pass>
  {
    if run == [] then []
    else
      var front, prev := PassesOf(t, run[..|run| - 1], limit, cfg, i), Run(t, run[..|run| - 1], limit, cfg);
      match run[|run| - 1]
      case Submitted(_) => front
      case Passed(p) =>
        if prev.Some? && Possible(prev.value, Passed(p), limit) && Counts(prev.value, p, limit, cfg, i)
        then front + [p.passes[i - prev.value.marked]] else front
  }

  predicate Counts(t: Table, p: ChainPass, limit: nat, cfg: Config, i: nat)
    requires Possible(t, Passed(p), limit)
  {
    && InBatch(t, limit, i) && Succeeds(Batch(t, limit), p, cfg)
    && t.txs[i].payload.nonce >= p.currentNonce
  }

  /** What a pass does to transaction `i` is what its own pass does, if that counts. */
  lemma PassIsBump(t: Table, p: ChainPass, limit: nat, cfg: Config, i: nat)
    requires Possible(t, Passed(p), limit) && i < |t.txs|
    ensures |Next(t, Passed(p), limit, cfg).txs| == |t.txs|
    ensures Next(t, Passed(p), limit, cfg).txs[i]
         == if Counts(t, p, limit, cfg, i) && BumpTx(t.txs[i], p.passes[i - t.marked], cfg).Ok?
            then BumpTx(t.txs[i], p.passes[i - t.marked], cfg).value else t.txs[i]
  {
    PassedAt(t, p, limit, cfg, i);
  }

  lemma PassAddsUp(t: Table, p: ChainPass, limit: nat, cfg: Config, i: nat, first: Tx, passes: seq<Pass>)
    requires Possible(t, Passed(p), limit) && i < |t.txs| && t.txs[i] == BumpAll(first, passes, cfg)
    ensures |Next(t, Passed(p), limit, cfg).txs| == |t.txs|
    ensures var passes' := if Counts(t, p, limit, cfg, i) then passes + [p.passes[i - t.marked]] else passes;
      Next(t, Passed(p), limit, cfg).txs[i] == BumpAll(first, passes', cfg)
  {
    PassIsBump(t, p, limit, cfg, i);
    if Counts(t, p, limit, cfg, i) {
      BumpAllSnoc(first, passes, p.passes[i - t.marked], cfg);
    }
  }

  /** A pass succeeds, and replaces every pending transaction of its batch, if each of them can be
      bumped, marking works where it is needed, and the database takes the result. */
  lemma PassReplaces(t: Table, p: ChainPass, limit: nat, cfg: Config, i: nat)
    requires Possible(t, Passed(p), limit) && InBatch(t, limit, i) && p.kept
    requires HaveConfirmed(Batch(t, limit), p.currentNonce) ==> p.mark.Committed?
    requires forall b :: 0 <= b < |Batch(t, limit)| && Batch(t, limit)[b].payload.nonce >= p.currentNonce ==>
      BumpTx(Batch(t, limit)[b], p.passes[b], cfg).Ok?
    requires t.txs[i].payload.nonce >= p.currentNonce
    ensures BumpTx(t.txs[i], p.passes[i - t.marked], cfg).Ok?
    ensures |Next(t, Passed(p), limit, cfg).txs| == |t.txs|
    ensures Next(t, Passed(p), limit, cfg).txs[i] == BumpTx(t.txs[i], p.passes[i - t.marked], cfg).value
  {
    assert t.txs[i] == Batch(t, limit)[i - t.marked];
    QueueFails(Batch(t, limit), p.passes, p.currentNonce, cfg);
    PassIsBump(t, p, limit, cfg, i);
  }

  /** A pass that meets a transaction below the current nonce marks all of them, if the database
      does what it is told; other passes mark nothing. */
  lemma MarkedIff(t: Table, p: ChainPass, limit: nat, cfg: Config, i: nat)
    requires Valid(t) && Possible(t, Passed(p), limit) && i < |t.txs|
    ensures i < Next(t, Passed(p), limit, cfg).marked <==>
      || i < t.marked
      || (&& t.txs[i].payload.nonce < p.currentNonce && !p.mark.Refused?
          && exists j: nat :: InBatch(t, limit, j) && t.txs[j].payload.nonce < p.currentNonce)
  {
    CountBelowAt(t.txs, p.currentNonce, i);
    if HaveConfirmed(Batch(t, limit), p.currentNonce) {
      var b :| 0 <= b < |Batch(t, limit)| && Batch(t, limit)[b].payload.nonce < p.currentNonce;
      assert InBatch(t, limit, t.marked + b);
    }
    if j: nat :| InBatch(t, limit, j) && t.txs[j].payload.nonce < p.currentNonce {
      assert Batch(t, limit)[j - t.marked] == t.txs[j];
    }
  }

  /** For each transaction a run of its chain is a run of its own passes. */
  lemma {:induction false} RunIsBumpAll(t: Table, run: seq<Event>, limit: nat, cfg: Config, i: nat)
    requires Valid(t) && i < |t.txs| && Run(t, run, limit, cfg).Some?
    ensures i < |Run(t, run, limit, cfg).value.txs|
    ensures Run(t, run, limit, cfg).value.txs[i] == BumpAll(t.txs[i], PassesOf(t, run, limit, cfg, i), cfg)
  {
    if run == [] {
    } else {
      var front, ev := run[..|run| - 1], run[|run| - 1];
      RunIsBumpAll(t, front, limit, cfg, i);
      RunKeepsOrder(t, front, limit, cfg);
      var prev, passes := Run(t, front, limit, cfg).value, PassesOf(t, front, limit, cfg, i);
      if ev.Passed? {
        PassAddsUp(prev, ev.p, limit, cfg, i, t.txs[i], passes);
      }
    }
  }

  lemma BumpAllSnoc(tx: Tx, passes: seq<Pass>, pass: Pass, cfg: Config)
    ensures var before := BumpAll(tx, passes, cfg);
      BumpAll(tx, passes + [pass], cfg)
        == if BumpTx(before, pass, cfg).Ok? then BumpTx(before, pass, cfg).value else before
  {
    assert (passes + [pass])[..|passes|] == passes;
  }

  /** Over any run of passes that succeed or fail as a whole, with new transactions in between, no
      payload changes, and each transaction pays at least its original prices bumped once for each
      of its replacements. */
  lemma ChainBumpsAddUp(t: Table, run: seq<Event>, limit: nat, cfg: Config, i: nat)
    requires Valid(t) && i < |t.txs| && Run(t, run, limit, cfg).Some?
    requires IsBump(cfg.bump) && Tip(t.txs[i].pricing) <= Cap(t.txs[i].pricing)
    ensures i < |Run(t, run, limit, cfg).value.txs|
    ensures var tx := Run(t, run, limit, cfg).value.txs[i];
            var n := Replacements(t.txs[i], PassesOf(t, run, limit, cfg, i), cfg);
      && tx.payload == t.txs[i].payload
      && PaysBumped(tx.pricing, t.txs[i].pricing, n, cfg.bump)
      && (n == 0 ==> tx == t.txs[i])
      && (n > 0 ==> Acceptable(tx.pricing, cfg))
  {
    RunIsBumpAll(t, run, limit, cfg, i);
    BumpsAddUp(t.txs[i], PassesOf(t, run, limit, cfg, i), cfg);
  }

  // ----- what an overpriced transaction holds up -----

  predicate Overpriced(tx: Tx, cfg: Config)
  {
    cfg.bump(Cap(tx.pricing)) > cfg.maxGasPrice
  }

  function ResultOf(t: Table, p: ChainPass, limit: nat, cfg: Config): Result<seq<Tx>>
    requires Possible(t, Passed(p), limit)
  {
    PassResult(Batch(t, limit), p.passes, p.currentNonce, p.mark.Committed?, cfg)
  }

  /** A transaction above the ceiling stays what it is in every run, so that each pass fails that
      has it in its batch, pending and elapsed. */
  lemma OverpricedStays(t: Table, run: seq<Event>, p: ChainPass, limit: nat, cfg: Config, i: nat)
    requires Valid(t) && i < |t.txs| && Run(t, run, limit, cfg).Some? && Overpriced(t.txs[i], cfg)
    requires Possible(Run(t, run, limit, cfg).value, Passed(p), limit)
    ensures var t' := Run(t, run, limit, cfg).value;
      && i < |t'.txs| && t'.txs[i] == t.txs[i]
      && (InBatch(t', limit, i) && t.txs[i].payload.nonce >= p.currentNonce && p.passes[i - t'.marked].elapsed
          ==> ResultOf(t', p, limit, cfg).Err?)
  {
    RunIsBumpAll(t, run, limit, cfg, i);
    NeverBumped(t.txs[i], PassesOf(t, run, limit, cfg, i), cfg);
    var t' := Run(t, run, limit, cfg).value;
    if InBatch(t', limit, i) && t.txs[i].payload.nonce >= p.currentNonce {
      OneBlocksAll(Batch(t', limit), p.passes, p.currentNonce, cfg, i - t'.marked);
    }
  }

  /** A pass in which transaction `i` is not mined, and has elapsed if it is in the batch. */
  predicate Waits(t: Table, p: ChainPass, limit: nat, i: nat)
    requires Possible(t, Passed(p), limit) && i < |t.txs|
  {
    && p.currentNonce <= t.txs[i].payload.nonce
    && (InBatch(t, limit, i) ==> p.passes[i - t.marked].elapsed)
  }

  /** None of the run's passes sees a current nonce above `n`. */
  predicate NotMined(run: seq<Event>, n: nat)
  {
    forall e :: 0 <= e < |run| && run[e].Passed? ==> run[e].p.currentNonce <= n
  }

  /** What is not mined is not marked. */
  lemma {:induction false} MarkedStaysBelow(t: Table, run: seq<Event>, limit: nat, cfg: Config, i: nat)
    requires Valid(t) && t.marked <= i < |t.txs| && Run(t, run, limit, cfg).Some?
    requires NotMined(run, t.txs[i].payload.nonce)
    ensures Run(t, run, limit, cfg).value.marked <= i < |Run(t, run, limit, cfg).value.txs|
    ensures Run(t, run, limit, cfg).value.txs[i].payload == t.txs[i].payload
  {
    if run == [] {
    } else {
      var front, ev := run[..|run| - 1], run[|run| - 1];
      MarkedStaysBelow(t, front, limit, cfg, i);
      RunKeepsOrder(t, front, limit, cfg);
      var prev := Run(t, front, limit, cfg).value;
      if ev.Passed? {
        PassedKeepsPayload(prev, ev.p, limit, cfg, i);
        CountBelowAt(prev.txs, ev.p.currentNonce, i);
      }
    }
  }

  predicate Sends(t: Table, p: ChainPass, limit: nat, cfg: Config, j: nat)
    requires Possible(t, Passed(p), limit) && j < |t.txs|
  {
    && ResultOf(t, p, limit, cfg).Ok?
    && exists x :: x in ResultOf(t, p, limit, cfg).value && x.payload.nonce == t.txs[j].payload.nonce
  }

  lemma QueueComesFrom(txs: seq<Tx>, passes: seq<Pass>, currentNonce: nat, cfg: Config, x: Tx) returns (b: nat)
    requires |passes| == |txs| && Ordered(txs) && Queue(txs, passes, currentNonce, cfg).Ok?
    requires x in Queue(txs, passes, currentNonce, cfg).value
    ensures b < |txs| && x.payload == txs[b].payload
  {
    QueueElements(txs, passes, currentNonce, cfg);
    b :| 0 <= b < |txs| && ComesOut(txs, passes, currentNonce, cfg, b, x);
    PayloadKept(txs[b], passes[b], cfg);
  }

  lemma SameNonce(txs: seq<Tx>, i: nat, j: nat)
    requires Ordered(txs) && i < |txs| && j < |txs| && txs[i].payload.nonce == txs[j].payload.nonce
    ensures i == j
  {
  }

  /** What a pass sends is in its batch. */
  lemma SentIsInBatch(t: Table, p: ChainPass, limit: nat, cfg: Config, j: nat)
    requires Valid(t) && Possible(t, Passed(p), limit) && j < |t.txs| && Sends(t, p, limit, cfg, j)
    ensures InBatch(t, limit, j)
  {
    var x :| x in ResultOf(t, p, limit, cfg).value && x.payload.nonce == t.txs[j].payload.nonce;
    var b := QueueComesFrom(Batch(t, limit), p.passes, p.currentNonce, cfg, x);
    SameNonce(t.txs, t.marked + b, j);
  }

  /** In every run in which an overpriced transaction is not mined, no pass sends it or anything
      behind it once its interval has elapsed. */
  lemma OverpricedHoldsUp(
      t: Table, run: seq<Event>, p: ChainPass, limit: nat, cfg: Config, i: nat, j: nat)
    requires Valid(t) && t.marked <= i < |t.txs| && Overpriced(t.txs[i], cfg)
    requires Run(t, run, limit, cfg).Some? && NotMined(run, t.txs[i].payload.nonce)
    requires Possible(Run(t, run, limit, cfg).value, Passed(p), limit)
    requires i <= j < |Run(t, run, limit, cfg).value.txs|
    requires p.currentNonce <= t.txs[i].payload.nonce
    requires InBatch(Run(t, run, limit, cfg).value, limit, i) ==>
      p.passes[i - Run(t, run, limit, cfg).value.marked].elapsed
    ensures !Sends(Run(t, run, limit, cfg).value, p, limit, cfg, j)
  {
    var t' := Run(t, run, limit, cfg).value;
    MarkedStaysBelow(t, run, limit, cfg, i);
    RunKeepsOrder(t, run, limit, cfg);
    OverpricedStays(t, run, p, limit, cfg, i);
    if Sends(t', p, limit, cfg, j) {
      SentIsInBatch(t', p, limit, cfg, j);
    }
  }

  /** A pass in which no interval has elapsed. */
  function IdlePass(n: nat): ChainPass
  {
    ChainPass(seq(n, _ => Pass(false, Err, Oracle(Err, Err), false)), 0, Refused, false)
  }

  lemma IdleSends(t: Table, limit: nat, cfg: Config, j: nat)
    requires Valid(t) && InBatch(t, limit, j)
    ensures Possible(t, Passed(IdlePass(|Batch(t, limit)|)), limit)
    ensures Sends(t, IdlePass(|Batch(t, limit)|), limit, cfg, j)
  {
    var batch, p := Batch(t, limit), IdlePass(|Batch(t, limit)|);
    QueueFails(batch, p.passes, 0, cfg);
    QueueElements(batch, p.passes, 0, cfg);
    assert ComesOut(batch, p.passes, 0, cfg, j - t.marked, t.txs[j]);
  }

  ghost predicate CanBeSent(t: Table, limit: nat, cfg: Config, i: nat, j: nat)
    requires t.marked <= |t.txs| && i < |t.txs| && j < |t.txs|
  {
    exists p :: Possible(t, Passed(p), limit) && Waits(t, p, limit, i) && Sends(t, p, limit, cfg, j)
  }

  /** Exactly what an overpriced transaction holds up, once elapsed and as long as it is not mined:
      if it is in the batch the whole batch, otherwise nothing but itself and what is behind it,
      which is not in the batch either. */
  lemma HeldUpIff(t: Table, limit: nat, cfg: Config, i: nat, j: nat)
    requires Valid(t) && t.marked <= i < |t.txs| && j < |t.txs| && Overpriced(t.txs[i], cfg)
    ensures CanBeSent(t, limit, cfg, i, j) <==> InBatch(t, limit, j) && !InBatch(t, limit, i)
    ensures InBatch(t, limit, j) && !InBatch(t, limit, i) ==> j < i
  {
    if CanBeSent(t, limit, cfg, i, j) {
      var p :| Possible(t, Passed(p), limit) && Waits(t, p, limit, i) && Sends(t, p, limit, cfg, j);
      SentIsInBatch(t, p, limit, cfg, j);
      if InBatch(t, limit, i) {
        OneBlocksAll(Batch(t, limit), p.passes, p.currentNonce, cfg, i - t.marked);
      }
    }
    if InBatch(t, limit, j) && !InBatch(t, limit, i) {
      IdleSends(t, limit, cfg, j);
      assert Waits(t, IdlePass(|Batch(t, limit)|), limit, i);
    }
  }

  /** With the source's limit: only the lowest transaction that is not marked can be sent, and only
      if it is not the overpriced one. So that one blocks nothing below it, and everything behind
      the lowest one waits, overpriced or not. */
  lemma HeldUpOneAtATime(t: Table, limit: nat, cfg: Config, i: nat, j: nat)
    requires limit == MAX_RESULTS_PER_CHAIN
    requires Valid(t) && t.marked <= i < |t.txs| && j < |t.txs| && Overpriced(t.txs[i], cfg)
    ensures CanBeSent(t, limit, cfg, i, j) <==> j == t.marked && j != i
  {
    HeldUpIff(t, limit, cfg, i, j);
  }

  lemma {:induction false} NeverBumped(tx: Tx, passes: seq<Pass>, cfg: Config)
    requires cfg.bump(Cap(tx.pricing)) > cfg.maxGasPrice
    ensures BumpAll(tx, passes, cfg) == tx
  {
    if passes == [] {
    } else {
      NeverBumped(tx, passes[..|passes| - 1], cfg);
      CeilingIsFinal(NO_FEES, tx.pricing, passes[|passes| - 1].oracle, cfg);
    }
  }
}
