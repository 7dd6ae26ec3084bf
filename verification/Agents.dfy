/** The snapshots that Notary and Guard submit: which states they choose, what they remember, and
    how the nonces of one origin progress over their runs. */
module Agents {
  import opened Wrappers
  import opened Bytes
  import opened Hashing
  import opened Encoder
  import opened Snapshot

  type Domain = uint32
  type States = map<Domain, State>

  // ----- choosing -----

  /** A state of nonce zero counts as none. */
  function Latest(states: States, d: Domain): Option<State>
  {
    if d !in states || states[d].nonce == 0 then None else Some(states[d])
  }

  /** There is a state to submit for the domain: one is offered, and it is newer than the one that
      was submitted last. */
  predicate IsNews(mine: States, offered: States, d: Domain)
  {
    && Latest(offered, d).Some?
    && (Latest(mine, d).Some? ==> Latest(mine, d).value.nonce < Latest(offered, d).value.nonce)
  }

  /** The states for the next snapshot, of the domains in `accepted` only. */
  function ToSubmit(domains: seq<Domain>, mine: States, offered: States, accepted: set<Domain>): States
  {
    map d | d in domains && IsNews(mine, offered, d) && d in accepted :: offered[d]
  }

  /** A domain's state is chosen exactly if one of positive nonce is offered, a newer one than what
      is remembered, and it is accepted. */
  lemma ChosenIff(domains: seq<Domain>, mine: States, offered: States, accepted: set<Domain>, d: Domain)
    ensures d in ToSubmit(domains, mine, offered, accepted) <==>
      && d in domains && d in accepted && d in offered
      && offered[d].nonce > 0 && (d in mine ==> mine[d].nonce < offered[d].nonce)
    ensures d in ToSubmit(domains, mine, offered, accepted) ==>
      ToSubmit(domains, mine, offered, accepted)[d] == offered[d]
  {
  }

  lemma ToSubmitSnoc(domains: seq<Domain>, d: Domain, mine: States, offered: States, accepted: set<Domain>)
    ensures ToSubmit(domains + [d], mine, offered, accepted)
         == if IsNews(mine, offered, d) && d in accepted
            then ToSubmit(domains, mine, offered, accepted)[d := offered[d]]
            else ToSubmit(domains, mine, offered, accepted)
  {
  }

  // ----- checking a state on its origin -----

  /** The Notary's comparison with what the origin returned for the nonce; a failed call is None. */
  predicate IsValidOnOrigin(k: Hash, s: State, onOrigin: Option<State>)
  {
    && onOrigin.Some?
    && onOrigin.value.root == s.root
    && onOrigin.value.origin == s.origin
    && onOrigin.value.nonce == s.nonce
    && U64(onOrigin.value.blockNumber) == U64(s.blockNumber)
    && U64(onOrigin.value.timestamp) == U64(s.timestamp)
    && StateHash(k, onOrigin.value).Ok?
    && StateHash(k, s).Ok?
    && StateHash(k, onOrigin.value).value == StateHash(k, s).value
  }

  /** The strings behind two states that pass the comparison and differ. */
  function OriginBreak(k: Hash, s: State, s': State): Break
    requires StateInRange(s) && StateInRange(s')
  {
    EncodeStateOk(s);
    EncodeStateOk(s');
    var e, e' := EncodeState(s).value, EncodeState(s').value;
    var top, top' := Keccak(k, LeftBytes(e)) + Keccak(k, RightBytes(e)),
                     Keccak(k, LeftBytes(e')) + Keccak(k, RightBytes(e'));
    if top != top' then Collision(top, top')
    else if LeftBytes(e) != LeftBytes(e') then Collision(LeftBytes(e), LeftBytes(e'))
    else Collision(RightBytes(e), RightBytes(e'))
  }

  /** A state that passes is the origin's own state, gas data included, or a collision is
      computed; block number and timestamp agree in full, not only in their low 64 bits. */
  lemma ValidIsOriginState(k: Hash, s: State, onOrigin: State)
    requires IsValidOnOrigin(k, s, Some(onOrigin))
    ensures StateInRange(s) && StateInRange(onOrigin)
    ensures s.(gasData := onOrigin.gasData) == onOrigin
    ensures s == onOrigin || Breaks(k, OriginBreak(k, s, onOrigin))
  {
    EncodeStateOk(s);
    EncodeStateOk(onOrigin);
    if s != onOrigin {
      HashBinding(k, s, onOrigin);
    }
  }

  /** And the origin's own state passes, if it can be encoded at all. */
  lemma OwnStatePasses(k: Hash, s: State)
    ensures IsValidOnOrigin(k, s, Some(s)) <==> StateInRange(s)
    ensures !IsValidOnOrigin(k, s, None)
  {
    EncodeStateOk(s);
  }

  lemma HashBinding(k: Hash, s: State, s': State)
    requires StateInRange(s) && StateInRange(s') && s != s'
    requires StateHash(k, s).Ok? && StateHash(k, s').Ok? && StateHash(k, s) == StateHash(k, s')
    ensures Breaks(k, OriginBreak(k, s, s'))
  {
    StateRoundTrip(s);
    StateRoundTrip(s');
    var e, e' := EncodeState(s).value, EncodeState(s').value;
    assert e == LeftBytes(e) + RightBytes(e) && e' == LeftBytes(e') + RightBytes(e');
    var a: Bytes, b: Bytes := Keccak(k, LeftBytes(e)), Keccak(k, RightBytes(e));
    var a': Bytes, b': Bytes := Keccak(k, LeftBytes(e')), Keccak(k, RightBytes(e'));
    if a + b == a' + b' {
      SplitConcat(a, b, a', b');
    }
  }

  /** The origin's answers, and the domains whose offered state they confirm. */
  function Confirmed(k: Hash, domains: seq<Domain>, offered: States, answers: map<Domain, State>): set<Domain>
  {
    set d | d in domains && d in offered
         && IsValidOnOrigin(k, offered[d], if d in answers then Some(answers[d]) else None)
  }

  /** So each state in a Notary's snapshot is the one its origin returned for that nonce. */
  lemma NotaryStatesAreTheOrigins(
      k: Hash, domains: seq<Domain>, mine: States, offered: States, answers: States, d: Domain)
    requires d in ToSubmit(domains, mine, offered, Confirmed(k, domains, offered, answers))
    ensures d in answers && StateInRange(offered[d]) && StateInRange(answers[d])
    ensures offered[d].(gasData := answers[d].gasData) == answers[d]
    ensures offered[d] == answers[d] || Breaks(k, OriginBreak(k, offered[d], answers[d]))
  {
    ValidIsOriginState(k, offered[d], answers[d]);
  }

  /** A newer state that the origin confirms is chosen. */
  lemma ConfirmedNewsIsChosen(
      k: Hash, domains: seq<Domain>, mine: States, offered: States, answers: States, d: Domain)
    requires d in domains && d in offered && d in answers && answers[d] == offered[d]
    requires StateInRange(offered[d]) && offered[d].nonce > 0
    requires d in mine ==> mine[d].nonce < offered[d].nonce
    ensures d in ToSubmit(domains, mine, offered, Confirmed(k, domains, offered, answers))
  {
    OwnStatePasses(k, offered[d]);
  }

  // ----- the agents -----

  /** One state for each domain of the map. */
  ghost predicate HoldsStates(states: seq<State>, toSubmit: States)
  {
    && |states| == |toSubmit|
    && (forall d :: d in toSubmit ==> toSubmit[d] in states)
    && (forall s :: s in states ==> exists d :: d in toSubmit && toSubmit[d] == s)
  }

  /** The values of the map in whatever order the iteration takes. */
  method CollectStates(toSubmit: States) returns (states: seq<State>)
    ensures HoldsStates(states, toSubmit)
  {
    states := [];
    var left := toSubmit.Keys;
    while left != {}
      invariant left <= toSubmit.Keys && |states| + |left| == |toSubmit|
      invariant forall d :: d in toSubmit && d !in left ==> toSubmit[d] in states
      invariant forall s :: s in states ==> exists d :: d in toSubmit && toSubmit[d] == s
      decreases |left|
    {
      var d :| d in left;
      left := left - {d};
      states := states + [toSubmit[d]];
    }
  }

  class Notary {
    const k: Hash
    const domains: seq<Domain>
    var summitMyLatestStates: States
    var summitGuardLatestStates: States
    /** The snapshots that went out. */
    ghost var submitted: seq<States>

    ghost function Now(): Agent
      reads this
    {
      Agent(summitMyLatestStates, summitGuardLatestStates, submitted)
    }

    constructor (k: Hash, domains: seq<Domain>, mine: States)
      ensures this.k == k && this.domains == domains
      ensures Now() == Run(domains, mine, [])
    {
      this.k, this.domains := k, domains;
      summitMyLatestStates, summitGuardLatestStates, submitted := mine, map[], [];
    }

    /** A call that fails and a state of nonce zero leave what was there. */
    method LoadSummitGuardLatestStates(answers: States)
      modifies this`summitGuardLatestStates
      ensures summitGuardLatestStates == Load(old(summitGuardLatestStates), domains, answers)
      ensures Now() == Next(domains, old(Now()), Offer(summitGuardLatestStates))
    {
      for i := 0 to |domains|
        invariant summitGuardLatestStates == Load(old(summitGuardLatestStates), domains[..i], answers)
      {
        assert domains[..i + 1][..i] == domains[..i];
        var d := domains[i];
        if d in answers && answers[d].nonce > 0 {
          summitGuardLatestStates := summitGuardLatestStates[d := answers[d]];
        }
      }
      assert domains[..|domains|] == domains;
    }

    /** What the Guard submitted, is newer than this Notary's own last state, and is confirmed. */
    ghost function Chosen(answers: States): States
      reads this
    {
      ToSubmit(domains, summitMyLatestStates, summitGuardLatestStates,
               Confirmed(k, domains, summitGuardLatestStates, answers))
    }

    method GetLatestSnapshot(answers: States) returns (snapshot: Option<seq<State>>, toSubmit: States)
      ensures toSubmit == Chosen(answers)
      ensures snapshot.Some? <==> toSubmit != map[]
      ensures snapshot.Some? ==> HoldsStates(snapshot.value, toSubmit)
    {
      ghost var confirmed := Confirmed(k, domains, summitGuardLatestStates, answers);
      toSubmit := map[];
      for i := 0 to |domains|
        invariant toSubmit == ToSubmit(domains[..i], summitMyLatestStates, summitGuardLatestStates, confirmed)
      {
        var d := domains[i];
        ToSubmitSnoc(domains[..i], d, summitMyLatestStates, summitGuardLatestStates, confirmed);
        assert domains[..i + 1] == domains[..i] + [d];
        var mine := Latest(summitMyLatestStates, d);
        var guardLatest := Latest(summitGuardLatestStates, d);
        if guardLatest == None {
          continue;
        }
        if mine.Some? && mine.value.nonce >= guardLatest.value.nonce {
          continue;
        }
        if !IsValidOnOrigin(k, guardLatest.value, if d in answers then Some(answers[d]) else None) {
          continue;
        }
        toSubmit := toSubmit[d := guardLatest.value];
      }
      assert domains[..|domains|] == domains;
      var states := CollectStates(toSubmit);
      snapshot := if |states| > 0 then Some(states) else None;
    }

    /** Signs and submits; only a submission that succeeded is remembered. */
    method SubmitLatestSnapshot(answers: States, signed: bool, sent: bool) returns (snapshotStates: Option<States>)
      modifies this`summitMyLatestStates, this`submitted
      ensures snapshotStates == WhatGoesOut(old(Chosen(answers)), signed && sent)
      ensures Now() == After(old(Now()), snapshotStates)
    {
      var snapshot, toSubmit := GetLatestSnapshot(answers);
      if snapshot == None {
        return None;
      }
      snapshotStates := SubmitStates(toSubmit, signed, sent);
    }

    /** The second half: sign, submit, remember. */
    method SubmitStates(toSubmit: States, signed: bool, sent: bool) returns (snapshotStates: Option<States>)
      requires toSubmit != map[]
      modifies this`summitMyLatestStates, this`submitted
      ensures snapshotStates == WhatGoesOut(toSubmit, signed && sent)
      ensures Now() == After(old(Now()), snapshotStates)
    {
      if !signed {
        return None;
      }
      if !sent {
        return None;
      }
      summitMyLatestStates := summitMyLatestStates + toSubmit;
      submitted := submitted + [toSubmit];
      snapshotStates := Some(toSubmit);
    }

    /** The loop of Start, for any number of rounds: a run of the agent, whatever the chains
        answer and whichever submissions fail. */
    method Work(rounds: seq<NotaryRound>) returns (ghost run: seq<Event>)
      modifies this
      ensures |run| == 2 * |rounds|
      ensures old(Now()) == Run(domains, old(summitMyLatestStates), []) ==>
        Now() == Run(domains, old(summitMyLatestStates), run) && Progress(old(summitMyLatestStates), Now())
    {
      run := [];
      ghost var mine := summitMyLatestStates;
      for i := 0 to |rounds|
        invariant |run| == 2 * i
        invariant old(Now()) == Run(domains, mine, []) ==> Now() == Run(domains, mine, run)
      {
        LoadSummitGuardLatestStates(rounds[i].offered);
        ghost var load, attempt := Offer(summitGuardLatestStates),
          Attempt(Confirmed(k, domains, summitGuardLatestStates, rounds[i].onOrigin), rounds[i].signed && rounds[i].sent);
        var snapshotStates := SubmitLatestSnapshot(rounds[i].onOrigin, rounds[i].signed, rounds[i].sent);
        RunTwoMore(domains, mine, run, load, attempt);
        run := run + [load, attempt];
      }
      NoncesIncrease(domains, mine, run);
    }
  }

  /** What a loading loop leaves in the map. */
  function Load(states: States, domains: seq<Domain>, answers: States): States
  {
    if domains == [] then states
    else
      var before, d := Load(states, domains[..|domains| - 1], answers), domains[|domains| - 1];
      if d in answers && answers[d].nonce > 0 then before[d := answers[d]] else before
  }

  /** Each domain's answer is taken if it has a positive nonce; otherwise what was there stays. */
  lemma {:induction false} LoadAt(states: States, domains: seq<Domain>, answers: States, d: Domain)
    ensures d in Load(states, domains, answers) <==> d in states || (d in domains && d in answers && answers[d].nonce > 0)
    ensures d in Load(states, domains, answers) ==>
      var taken := d in domains && d in answers && answers[d].nonce > 0;
      Load(states, domains, answers)[d] == if taken then answers[d] else states[d]
  {
    if domains == [] {
    } else {
      LoadAt(states, domains[..|domains| - 1], answers, d);
      assert domains == domains[..|domains| - 1] + [domains[|domains| - 1]];
    }
  }

  /** The Guard takes the states from the origins themselves, so it checks nothing further. */
  class Guard {
    const domains: seq<Domain>
    var summitLatestStates: States
    var originLatestStates: States
    /** The snapshots that went out. */
    ghost var submitted: seq<States>

    ghost function Now(): Agent
      reads this
    {
      Agent(summitLatestStates, originLatestStates, submitted)
    }

    constructor (domains: seq<Domain>, mine: States)
      ensures this.domains == domains && Now() == Run(domains, mine, [])
    {
      this.domains := domains;
      summitLatestStates, originLatestStates, submitted := mine, map[], [];
    }

    /** Any state the origin returns is taken, one of nonce zero too. */
    method LoadOriginLatestStates(answers: States)
      modifies this`originLatestStates
      ensures originLatestStates == old(originLatestStates) + (map d | d in domains && d in answers :: answers[d])
      ensures Now() == Next(domains, old(Now()), Offer(originLatestStates))
    {
      for i := 0 to |domains|
        invariant originLatestStates
               == old(originLatestStates) + (map d | d in domains[..i] && d in answers :: answers[d])
      {
        assert domains[..i + 1] == domains[..i] + [domains[i]];
        if domains[i] in answers {
          originLatestStates := originLatestStates[domains[i] := answers[domains[i]]];
        }
      }
      assert domains[..|domains|] == domains;
    }

    method GetLatestSnapshot() returns (snapshot: Option<seq<State>>, toSubmit: States)
      ensures toSubmit == ToSubmit(domains, summitLatestStates, originLatestStates, DomainSet(domains))
      ensures snapshot.Some? <==> toSubmit != map[]
      ensures snapshot.Some? ==> HoldsStates(snapshot.value, toSubmit)
    {
      toSubmit := map[];
      for i := 0 to |domains|
        invariant toSubmit == ToSubmit(domains[..i], summitLatestStates, originLatestStates, DomainSet(domains))
      {
        var d := domains[i];
        ToSubmitSnoc(domains[..i], d, summitLatestStates, originLatestStates, DomainSet(domains));
        assert domains[..i + 1] == domains[..i] + [d];
        var summitLatest := Latest(summitLatestStates, d);
        var originLatest := Latest(originLatestStates, d);
        if originLatest == None {
          continue;
        }
        if summitLatest.Some? && summitLatest.value.nonce >= originLatest.value.nonce {
          continue;
        }
        toSubmit := toSubmit[d := originLatest.value];
      }
      assert domains[..|domains|] == domains;
      var states := CollectStates(toSubmit);
      snapshot := if |states| > 0 then Some(states) else None;
    }

    method SubmitLatestSnapshot(signed: bool, sent: bool) returns (snapshotStates: Option<States>)
      modifies this`summitLatestStates, this`submitted
      ensures snapshotStates
           == WhatGoesOut(ToSubmit(domains, old(summitLatestStates), originLatestStates, DomainSet(domains)), signed && sent)
      ensures Now() == After(old(Now()), snapshotStates)
    {
      var snapshot, toSubmit := GetLatestSnapshot();
      if snapshot == None {
        return None;
      }
      if !signed {
        return None;
      }
      if !sent {
        return None;
      }
      summitLatestStates := summitLatestStates + toSubmit;
      submitted := submitted + [toSubmit];
      snapshotStates := Some(toSubmit);
    }

    /** The loop of Start, for any number of rounds. */
    method Work(rounds: seq<GuardRound>) returns (ghost run: seq<Event>)
      modifies this
      ensures |run| == 2 * |rounds|
      ensures old(Now()) == Run(domains, old(summitLatestStates), []) ==>
        Now() == Run(domains, old(summitLatestStates), run) && Progress(old(summitLatestStates), Now())
    {
      run := [];
      ghost var mine := summitLatestStates;
      for i := 0 to |rounds|
        invariant |run| == 2 * i
        invariant old(Now()) == Run(domains, mine, []) ==> Now() == Run(domains, mine, run)
      {
        LoadOriginLatestStates(rounds[i].offered);
        ghost var load, attempt :=
          Offer(originLatestStates), Attempt(DomainSet(domains), rounds[i].signed && rounds[i].sent);
        var snapshotStates := SubmitLatestSnapshot(rounds[i].signed, rounds[i].sent);
        RunTwoMore(domains, mine, run, load, attempt);
        run := run + [load, attempt];
      }
      NoncesIncrease(domains, mine, run);
    }
  }

  function DomainSet(domains: seq<Domain>): set<Domain>
  {
    set d | d in domains
  }

  /** What the outside does in one round of an agent. */
  datatype NotaryRound = NotaryRound(offered: States, onOrigin: States, signed: bool, sent: bool)
  datatype GuardRound = GuardRound(offered: States, signed: bool, sent: bool)

  // ----- runs of either agent -----

  /** `submitted` are the snapshots that went out, in order. */
  datatype Agent = Agent(mine: States, offered: States, submitted: seq<States>)

  /** Offered states change in any way; an attempt to submit is successful or not. */
  datatype Event = Offer(states: States) | Attempt(accepted: set<Domain>, success: bool)

  function Next(domains: seq<Domain>, a: Agent, ev: Event): Agent
  {
    match ev
    case Offer(states) => a.(offered := states)
    case Attempt(accepted, success) =>
      After(a, WhatGoesOut(ToSubmit(domains, a.mine, a.offered, accepted), success))
  }

  /** An empty snapshot is not submitted, and a failed submission is none. */
  function WhatGoesOut(chosen: States, success: bool): Option<States>
  {
    if chosen != map[] && success then Some(chosen) else None
  }

  /** Only what went out is remembered. */
  function After(a: Agent, snapshot: Option<States>): Agent
  {
    if snapshot == None then a
    else a.(mine := a.mine + snapshot.value, submitted := a.submitted + [snapshot.value])
  }

  function Run(domains: seq<Domain>, mine: States, run: seq<Event>): Agent
  {
    if run == [] then Agent(mine, map[], [])
    else Next(domains, Run(domains, mine, run[..|run| - 1]), run[|run| - 1])
  }

  /** An attempt that succeeds with a state to submit goes out and is remembered; any other one
      changes nothing. */
  lemma AttemptOutcome(domains: seq<Domain>, a: Agent, accepted: set<Domain>, success: bool)
    ensures var chosen := ToSubmit(domains, a.mine, a.offered, accepted);
            var a' := Next(domains, a, Attempt(accepted, success));
      if success && exists d :: d in chosen then
        && a'.submitted == a.submitted + [chosen]
        && (forall d :: d in chosen ==> d in a'.mine && a'.mine[d] == chosen[d])
        && (forall d :: d in a.mine && d !in chosen ==> d in a'.mine && a'.mine[d] == a.mine[d])
      else a' == a
  {
    var chosen := ToSubmit(domains, a.mine, a.offered, accepted);
    if chosen != map[] {
      assert chosen.Keys != {};
    }
  }

  lemma RunTwoMore(domains: seq<Domain>, mine: States, run: seq<Event>, a: Event, b: Event)
    ensures Run(domains, mine, run + [a, b]) == Next(domains, Next(domains, Run(domains, mine, run), a), b)
  {
    RunOneMore(domains, mine, run, a);
    RunOneMore(domains, mine, run + [a], b);
    assert run + [a, b] == run + [a] + [b];
  }

  lemma RunOneMore(domains: seq<Domain>, mine: States, run: seq<Event>, ev: Event)
    ensures Run(domains, mine, run + [ev]) == Next(domains, Run(domains, mine, run), ev)
  {
    assert (run + [ev])[..|run|] == run;
  }

  /** The memory has a state of at least this nonce. */
  predicate Remembers(states: States, d: Domain, nonce: nat)
  {
    d in states && nonce <= states[d].nonce
  }

  /** The snapshot's states are newer than the remembered ones. */
  predicate Newer(mine: States, chosen: States)
  {
    forall d :: d in chosen ==> chosen[d].nonce > 0 && (d in mine ==> mine[d].nonce < chosen[d].nonce)
  }

  /** Per domain, later snapshots carry higher nonces, starting above the one remembered at first,
      and nothing remembered is older than what was submitted. */
  ghost predicate Progress(mine: States, a: Agent)
  {
    && (forall d :: d in mine ==> Remembers(a.mine, d, mine[d].nonce))
    && (forall i :: 0 <= i < |a.submitted| ==> Newer(mine, a.submitted[i]))
    && (forall i, d :: 0 <= i < |a.submitted| && d in a.submitted[i] ==>
          Remembers(a.mine, d, a.submitted[i][d].nonce))
    && (forall i, j, d :: 0 <= i < j < |a.submitted| && d in a.submitted[i] && d in a.submitted[j] ==>
          a.submitted[i][d].nonce < a.submitted[j][d].nonce)
  }

  lemma ChosenIsNewer(domains: seq<Domain>, mine: States, offered: States, accepted: set<Domain>)
    ensures Newer(mine, ToSubmit(domains, mine, offered, accepted))
  {
  }

  lemma SnapshotKeepsProgress(mine: States, a: Agent, chosen: States)
    requires Progress(mine, a) && Newer(a.mine, chosen)
    ensures Progress(mine, a.(mine := a.mine + chosen, submitted := a.submitted + [chosen]))
  {
    forall d | d in a.mine
      ensures Remembers(a.mine + chosen, d, a.mine[d].nonce)
    {
    }
    forall d | d in mine && d in chosen
      ensures mine[d].nonce < chosen[d].nonce
    {
      assert Remembers(a.mine, d, mine[d].nonce);
    }
    forall i, d | 0 <= i < |a.submitted| && d in a.submitted[i] && d in chosen
      ensures a.submitted[i][d].nonce < chosen[d].nonce
    {
      assert Remembers(a.mine, d, a.submitted[i][d].nonce);
    }
  }

  /** Whatever is offered and whichever attempts fail, the nonces of one origin in the snapshots
      that were submitted strictly increase. */
  lemma {:induction false} NoncesIncrease(domains: seq<Domain>, mine: States, run: seq<Event>)
    ensures Progress(mine, Run(domains, mine, run))
  {
    if run == [] {
    } else {
      NoncesIncrease(domains, mine, run[..|run| - 1]);
      var a := Run(domains, mine, run[..|run| - 1]);
      if run[|run| - 1].Attempt? {
        ChosenIsNewer(domains, a.mine, a.offered, run[|run| - 1].accepted);
        SnapshotKeepsProgress(mine, a, ToSubmit(domains, a.mine, a.offered, run[|run| - 1].accepted));
      }
    }
  }
}
