/** What one evaluation amounts to when it is run to its end, and that some
    unfinished evaluation can always go on. */
module NetworkEvaluation {
  import opened NetworkManager

  // --- one evaluation, step by step to its end -----------------------------------

  /** How the calls of one evaluation turn out. */
  datatype Luck = Luck(seen: Seen, plugin: bool, added: bool, hosts: bool, spawned: Thread)

  function ChoiceAt(pc: Pc, luck: Luck): Choice {
    match pc
    case Lookup(_, _) => Choice(luck.plugin, luck.seen, luck.spawned)
    case Add(_, _) => Choice(luck.added, luck.seen, luck.spawned)
    case _ => Choice(luck.hosts, luck.seen, luck.spawned)
  }

  /** Statements an evaluation has ahead of it, at most. */
  function Ahead(pc: Pc): nat {
    match pc
    case WantLock => 8
    case ReadTime => 7
    case Inspect(_) => 6
    case Lookup(_, _) => 5
    case Add(_, _) => 4
    case AddFailed => 2
    case Hosts(_, _) => 3
    case Started(_, _) => 2
    case Down => 2
    case Leaving => 1
    case Done => 0
  }

  /** Every statement leads on: no evaluation comes back to where it was. */
  lemma StepsLeadOn(s: State, t: Thread, c: Choice)
    requires Enabled(s, t, c)
    ensures t in Act(s, t, c).threads && Ahead(Act(s, t, c).threads[t].pc) < Ahead(s.threads[t].pc)
    ensures Act(s, t, c).threads[t].pc == Done <==> s.threads[t].pc == Leaving
  {
  }

  predicate Going(s: State, t: Thread, luck: Luck) {
    t in s.threads && s.threads[t].chain in s.chains && luck.spawned !in s.threads &&
    (s.threads[t].pc == WantLock ==> s.threads[t].id !in s.locks)
  }

  /** The state in which an evaluation ends that nothing comes between. */
  function Finished(s: State, t: Thread, luck: Luck): State
    requires t in s.threads && (s.threads[t].pc != Leaving && s.threads[t].pc != Done ==> Going(s, t, luck))
    requires s.threads[t].chain in s.chains
    decreases if t in s.threads then Ahead(s.threads[t].pc) else 0
  {
    if s.threads[t].pc == Done then s
    else
      var c := ChoiceAt(s.threads[t].pc, luck);
      StepsLeadOn(s, t, c);
      Finished(Act(s, t, c), t, luck)
  }

  // --- the outcome in full ---------------------------------------------------------

  predicate ShouldUp(was: string, seen: Seen) {
    seen.Container? && seen.running && (was == "" || seen.startedAt != was)
  }

  predicate ShouldDown(was: string, seen: Seen) {
    was != "" && (seen == NotFound || (seen.Container? && !seen.running))
  }

  /** The evaluation is over and the lock given back. */
  function Ends(s: State, t: Thread): State
    requires t in s.threads
  {
    s.(threads := s.threads[t := s.threads[t].(pc := Done)], locks := s.locks - {s.threads[t].id})
  }

  function WentUp(s: State, t: Thread, startedAt: string): State
    requires t in s.threads
  {
    var id := s.threads[t].id;
    Ends(s, t).(startTimes := s.startTimes[id := startedAt], log := s.log + [Up(id, startedAt)])
  }

  function WentDown(s: State, t: Thread): State
    requires t in s.threads
  {
    var id := s.threads[t].id;
    Ends(s, t).(startTimes := s.startTimes - {id}, log := s.log + [Stopped(id)])
  }

  /** A retry with the next number has been started, if one is left. */
  function Retries(s: State, t: Thread, spawned: Thread): State
    requires t in s.threads && s.threads[t].chain in s.chains
  {
    var e := s.threads[t];
    if e.retryCount >= 15 then Ends(s, t)
    else
      Ends(s, t).(
        threads := s.threads[t := e.(pc := Done)][spawned := Evaluation(e.id, e.retryCount + 1, e.chain, WantLock)],
        chains := s.chains[e.chain := Tally(e.retryCount + 1, s.chains[e.chain].adds)])
  }

  /** CNIAdd has been called once more. */
  function Tried(s: State, t: Thread): State
    requires t in s.threads && s.threads[t].chain in s.chains
  {
    var tally := s.chains[s.threads[t].chain];
    s.(chains := s.chains[s.threads[t].chain := Tally(tally.latest, tally.adds + 1)])
  }

  function Brought(s: State, t: Thread, startedAt: string, luck: Luck): State
    requires t in s.threads && s.threads[t].chain in s.chains
  {
    if !luck.plugin then Ends(s, t)
    else if !luck.added then Retries(Tried(s, t), t, luck.spawned)
    else if luck.hosts then WentUp(Tried(s, t), t, startedAt)
    else Ends(Tried(s, t), t)
  }

  /** Where an undisturbed evaluation leaves the manager. */
  function Outcome(s: State, t: Thread, was: string, luck: Luck): State
    requires t in s.threads && s.threads[t].chain in s.chains
  {
    if ShouldDown(was, luck.seen) then WentDown(s, t)
    else if ShouldUp(was, luck.seen) then Brought(s, t, luck.seen.startedAt, luck)
    else Ends(s, t)
  }

  lemma EndsForgets(s: State, t: Thread, pc: Pc)
    requires t in s.threads
    ensures Ends(Goto(s, t, pc), t) == Ends(s, t)
  {
    assert Goto(s, t, pc).threads[t := s.threads[t].(pc := Done)] == s.threads[t := s.threads[t].(pc := Done)];
  }

  lemma BroughtForgets(s: State, t: Thread, pc: Pc, startedAt: string, luck: Luck)
    requires t in s.threads && s.threads[t].chain in s.chains
    ensures Brought(Goto(s, t, pc), t, startedAt, luck) == Brought(s, t, startedAt, luck)
  {
    EndsForgets(s, t, pc);
    assert Tried(Goto(s, t, pc), t) == Goto(Tried(s, t), t, pc);
    EndsForgets(Tried(s, t), t, pc);
  }

  lemma OutcomeForgets(s: State, t: Thread, pc: Pc, was: string, luck: Luck)
    requires t in s.threads && s.threads[t].chain in s.chains
    ensures Outcome(Goto(s, t, pc), t, was, luck) == Outcome(s, t, was, luck)
  {
    EndsForgets(s, t, pc);
    if luck.seen.Container? { BroughtForgets(s, t, pc, luck.seen.startedAt, luck); }
  }

  // --- from each statement to the end -------------------------------------------------

  /** A step of an evaluation that can run, taken apart. */
  lemma OneStep(s: State, t: Thread, luck: Luck) returns (next: State)
    requires Going(s, t, luck) && s.threads[t].pc != Done
    ensures next == Act(s, t, ChoiceAt(s.threads[t].pc, luck))
    ensures t in next.threads && next.threads[t] == s.threads[t].(pc := next.threads[t].pc)
    ensures s.threads[t].chain in next.chains
    ensures s.threads[t].pc.AddFailed? ==> next.threads[t].pc == Leaving
    ensures next.threads[t].pc != Done && s.threads[t].pc != AddFailed ==> Going(next, t, luck)
    ensures next.threads[t].pc != Done ==> Finished(s, t, luck) == Finished(next, t, luck)
  {
    next := Act(s, t, ChoiceAt(s.threads[t].pc, luck));
  }

  lemma LeavingEnds(s: State, t: Thread, luck: Luck)
    requires t in s.threads && s.threads[t].chain in s.chains && s.threads[t].pc == Leaving
    ensures Finished(s, t, luck) == Ends(s, t)
  {
    assert Act(s, t, ChoiceAt(Leaving, luck)) == Ends(s, t);
  }

  /** A step that only moves on to the end. */
  lemma ThenLeaves(s: State, t: Thread, luck: Luck)
    requires Going(s, t, luck) && s.threads[t].pc != Done
    requires Act(s, t, ChoiceAt(s.threads[t].pc, luck)) == Goto(s, t, Leaving)
    ensures Finished(s, t, luck) == Ends(s, t)
  {
    var next := OneStep(s, t, luck);
    LeavingEnds(next, t, luck);
    EndsForgets(s, t, Leaving);
  }

  lemma FromStarted(s: State, t: Thread, luck: Luck)
    requires Going(s, t, luck) && s.threads[t].pc.Started?
    ensures Finished(s, t, luck) == WentUp(s, t, s.threads[t].pc.startedAt)
  {
    var next := OneStep(s, t, luck);
    LeavingEnds(next, t, luck);
    EndsForgets(s, t, Leaving);
  }

  lemma FromDown(s: State, t: Thread, luck: Luck)
    requires Going(s, t, luck) && s.threads[t].pc == Down
    ensures Finished(s, t, luck) == WentDown(s, t)
  {
    var next := OneStep(s, t, luck);
    LeavingEnds(next, t, luck);
    EndsForgets(s, t, Leaving);
  }

  lemma FromHosts(s: State, t: Thread, luck: Luck)
    requires Going(s, t, luck) && s.threads[t].pc.Hosts?
    ensures Finished(s, t, luck) == if luck.hosts then WentUp(s, t, s.threads[t].pc.startedAt) else Ends(s, t)
  {
    if luck.hosts {
      var next := OneStep(s, t, luck);
      FromStarted(next, t, luck);
      EndsForgets(s, t, next.threads[t].pc);
    } else {
      ThenLeaves(s, t, luck);
    }
  }

  lemma FromAddFailed(s: State, t: Thread, luck: Luck)
    requires Going(s, t, luck) && s.threads[t].pc == AddFailed
    ensures Finished(s, t, luck) == Retries(s, t, luck.spawned)
  {
    if s.threads[t].retryCount < 15 {
      var next := OneStep(s, t, luck);
      LeavingEnds(next, t, luck);
      assert Ends(next, t).threads == Retries(s, t, luck.spawned).threads;
    } else {
      ThenLeaves(s, t, luck);
    }
  }

  lemma FromAdd(s: State, t: Thread, luck: Luck)
    requires Going(s, t, luck) && s.threads[t].pc.Add? && luck.plugin
    ensures Finished(s, t, luck) == Brought(s, t, s.threads[t].pc.startedAt, luck)
  {
    var next := OneStep(s, t, luck);
    assert next == Goto(Tried(s, t), t, next.threads[t].pc);
    if luck.added {
      FromHosts(next, t, luck);
    } else {
      FromAddFailed(next, t, luck);
    }
    EndsForgets(Tried(s, t), t, next.threads[t].pc);
  }

  lemma FromLookup(s: State, t: Thread, luck: Luck)
    requires Going(s, t, luck) && s.threads[t].pc.Lookup?
    ensures Finished(s, t, luck) == Brought(s, t, s.threads[t].pc.startedAt, luck)
  {
    if luck.plugin {
      var next := OneStep(s, t, luck);
      FromAdd(next, t, luck);
      BroughtForgets(s, t, next.threads[t].pc, s.threads[t].pc.startedAt, luck);
    } else {
      ThenLeaves(s, t, luck);
    }
  }

  lemma FromInspect(s: State, t: Thread, luck: Luck)
    requires Going(s, t, luck) && s.threads[t].pc.Inspect?
    ensures Finished(s, t, luck) == Outcome(s, t, s.threads[t].pc.wasTime, luck)
  {
    var was := s.threads[t].pc.wasTime;
    if ShouldDown(was, luck.seen) {
      var next := OneStep(s, t, luck);
      FromDown(next, t, luck);
      EndsForgets(s, t, Down);
    } else if ShouldUp(was, luck.seen) {
      var next := OneStep(s, t, luck);
      FromLookup(next, t, luck);
      BroughtForgets(s, t, next.threads[t].pc, luck.seen.startedAt, luck);
    } else {
      ThenLeaves(s, t, luck);
    }
  }

  lemma FromReadTime(s: State, t: Thread, luck: Luck)
    requires Going(s, t, luck) && s.threads[t].pc == ReadTime
    ensures Finished(s, t, luck) == Outcome(s, t, Recorded(s, s.threads[t].id), luck)
  {
    var next := OneStep(s, t, luck);
    FromInspect(next, t, luck);
    OutcomeForgets(s, t, next.threads[t].pc, Recorded(s, s.threads[t].id), luck);
  }

  function Recorded(s: State, id: Id): string { if id in s.startTimes then s.startTimes[id] else "" }

  /** An evaluation nothing comes between brings up exactly the running container
      it has no record of under that start time, takes down exactly the recorded
      one that no longer runs, and gives the lock back. */
  lemma EvaluationInFull(s: State, t: Thread, luck: Luck)
    requires Going(s, t, luck) && s.threads[t].pc == WantLock
    ensures Finished(s, t, luck) == Outcome(s, t, Recorded(s, s.threads[t].id), luck)
  {
    var next := OneStep(s, t, luck);
    FromReadTime(next, t, luck);
    LockIsGivenBack(s, t, luck);
  }

  /** The outcome from the state with the lock taken is that from the one before. */
  lemma LockIsGivenBack(s: State, t: Thread, luck: Luck)
    requires Going(s, t, luck) && s.threads[t].pc == WantLock
    ensures var id := s.threads[t].id;
      Outcome(Goto(s.(locks := s.locks[id := t]), t, ReadTime), t, Recorded(s, id), luck) == Outcome(s, t, Recorded(s, id), luck)
  {
    var id := s.threads[t].id;
    var held := s.(locks := s.locks[id := t]);
    OutcomeForgets(held, t, ReadTime, Recorded(s, id), luck);
    assert Ends(held, t).locks == Ends(s, t).locks;
  }

  // --- nobody is ever stuck ----------------------------------------------------------

  /** A lock that is taken is held by an evaluation of that very container. */
  predicate HolderOk(s: State, id: Id)
    requires id in s.locks
  {
    s.locks[id] in s.threads && s.threads[s.locks[id]].id == id && Locked(s.threads[s.locks[id]].pc)
  }

  ghost predicate HeldInv(s: State) {
    forall id :: id in s.locks ==> HolderOk(s, id)
  }

  lemma ActKeepsHeld(s: State, t: Thread, c: Choice)
    requires HeldInv(s) && Enabled(s, t, c)
    ensures HeldInv(Act(s, t, c))
  {
    forall id | id in Act(s, t, c).locks ensures HolderOk(Act(s, t, c), id) {
      assert id in s.locks ==> HolderOk(s, id);
    }
  }

  lemma StepKeepsHeld(s: State, s': State)
    requires HeldInv(s) && Next(s, s')
    ensures HeldInv(s')
  {
    if t: Thread, c: Choice :| Acts(s, s', t, c) {
      ActKeepsHeld(s, t, c);
    } else {
      forall id | id in s'.locks ensures HolderOk(s', id) { assert HolderOk(s, id); }
    }
  }

  lemma {:induction false} RunKeepsHeld(trace: seq<State>, n: nat)
    requires Run(trace) && n < |trace|
    ensures HeldInv(trace[n])
  {
    if n > 0 {
      RunKeepsHeld(trace, n - 1);
      StepKeepsHeld(trace[n - 1], trace[n]);
    }
  }

  lemma {:induction false} AllBelow(used: set<Thread>) returns (below: nat)
    ensures forall u :: u in used ==> u < below
  {
    if used == {} {
      below := 0;
    } else {
      var u :| u in used;
      var rest := AllBelow(used - {u});
      below := if u < rest then rest else u + 1;
      forall v | v in used ensures v < below { assert v == u || v in used - {u}; }
    }
  }

  /** Waiting for the lock of a container only ever means waiting for an
      evaluation of that container, which can go on itself. */
  lemma SomebodyCanMove(trace: seq<State>, n: nat, t: Thread)
    requires Run(trace) && n < |trace| && t in trace[n].threads && trace[n].threads[t].pc != Done
    ensures exists u, c :: Enabled(trace[n], u, c) && trace[n].threads[u].id == trace[n].threads[t].id
  {
    var s := trace[n];
    RunKeepsInv(trace, n);
    RunKeepsHeld(trace, n);
    var id := s.threads[t].id;
    var u := if s.threads[t].pc == WantLock && id in s.locks then s.locks[id] else t;
    assert id in s.locks ==> HolderOk(s, id);
    var below := AllBelow(s.threads.Keys);
    assert Enabled(s, u, Choice(true, NotFound, below));
  }
}
