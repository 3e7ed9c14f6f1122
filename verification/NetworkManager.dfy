/** Container networking: `Evaluate` calls and their retries, interleaved, each
    holding the container's keyed lock for its whole duration. */
module NetworkManager {
  import opened Wrappers

  type Id = string
  type Thread = nat
  type Chain = nat

  const MAX_RETRIES := 15

  /** What `ContainerInspect` and `configureNetwork` report. */
  datatype Seen = InspectFailed | NotFound | Unmanaged | Container(running: bool, startedAt: string)

  datatype Decision = Stay | GoUp(startedAt: string) | GoDown

  /** The branches of `evaluate`; an empty recorded time means not running. */
  function Decide(wasTime: string, seen: Seen): Decision {
    match seen
    case InspectFailed => Stay
    case Unmanaged => Stay
    case NotFound => if wasTime != "" then GoDown else Stay
    case Container(running, time) =>
      if wasTime != "" then
        if running && wasTime != time then GoUp(time) else if !running then GoDown else Stay
      else if running then GoUp(time) else Stay
  }

  /** The statement a thread is about to run, with the locals it still needs. */
  datatype Pc =
    | WantLock                                  // n.locks.Lock(id)
    | ReadTime                                  // wasTime := n.s.StartTime(id)
    | Inspect(wasTime: string)                  // ContainerInspect and the decision
    | Lookup(wasTime: string, startedAt: string)   // LookupPluginState
    | Add(wasTime: string, startedAt: string)      // CNIAdd
    | AddFailed                                 // go n.retry(id, retryCount+1), if any retry is left
    | Hosts(wasTime: string, startedAt: string)    // setupHosts
    | Started(wasTime: string, startedAt: string)  // n.s.Started, then return nil
    | Down                                      // CNIDel, then the deferred n.s.Stopped
    | Leaving                                   // the deferred unlock
    | Done

  datatype Evaluation = Evaluation(id: Id, retryCount: nat, chain: Chain, pc: Pc)

  /** Completed transitions, oldest first. */
  datatype Event = Up(id: Id, startedAt: string) | Stopped(id: Id)

  /** Bookkeeping per external `Evaluate` call: its newest retry and its CNIAdd calls. */
  datatype Tally = Tally(latest: nat, adds: nat)

  datatype State = State(
    locks: map<Id, Thread>, startTimes: map<Id, string>, threads: map<Thread, Evaluation>,
    log: seq<Event>, chains: map<Chain, Tally>)

  function StartTime(s: State, id: Id): string { if id in s.startTimes then s.startTimes[id] else "" }

  // --- steps ------------------------------------------------------------------

  /** How an operation the program cannot control turns out. */
  datatype Choice = Choice(ok: bool, seen: Seen, spawned: Thread)

  predicate Enabled(s: State, t: Thread, c: Choice) {
    t in s.threads && s.threads[t].pc != Done && s.threads[t].chain in s.chains &&
    (s.threads[t].pc == WantLock ==> s.threads[t].id !in s.locks) &&
    (s.threads[t].pc == AddFailed ==> c.spawned !in s.threads)
  }

  function Goto(s: State, t: Thread, pc: Pc): State
    requires t in s.threads
  {
    s.(threads := s.threads[t := s.threads[t].(pc := pc)])
  }

  function Act(s: State, t: Thread, c: Choice): State
    requires Enabled(s, t, c)
  {
    var e := s.threads[t];
    var tally := s.chains[e.chain];
    match e.pc
    case WantLock => Goto(s.(locks := s.locks[e.id := t]), t, ReadTime)
    case ReadTime => Goto(s, t, Inspect(StartTime(s, e.id)))
    case Inspect(wasTime) =>
      (match Decide(wasTime, c.seen)
       case Stay => Goto(s, t, Leaving)
       case GoUp(startedAt) => Goto(s, t, Lookup(wasTime, startedAt))
       case GoDown => Goto(s, t, Down))
    case Lookup(w, startedAt) => Goto(s, t, if c.ok then Add(w, startedAt) else Leaving)
    case Add(w, startedAt) =>
      Goto(s.(chains := s.chains[e.chain := tally.(adds := tally.adds + 1)]), t,
           if c.ok then Hosts(w, startedAt) else AddFailed)
    case AddFailed =>
      if e.retryCount < MAX_RETRIES then
        var retried := s.threads[c.spawned := Evaluation(e.id, e.retryCount + 1, e.chain, WantLock)];
        Goto(s.(threads := retried, chains := s.chains[e.chain := tally.(latest := e.retryCount + 1)]), t, Leaving)
      else Goto(s, t, Leaving)
    case Hosts(w, startedAt) => Goto(s, t, if c.ok then Started(w, startedAt) else Leaving)
    case Started(_, startedAt) =>
      Goto(s.(startTimes := s.startTimes[e.id := startedAt], log := s.log + [Up(e.id, startedAt)]), t, Leaving)
    case Down => Goto(s.(startTimes := s.startTimes - {e.id}, log := s.log + [Stopped(e.id)]), t, Leaving)
    case Leaving => Goto(s.(locks := s.locks - {e.id}), t, Done)
    case Done => s
  }

  predicate Calls(s: State, s': State, t: Thread, chain: Chain, id: Id) {
    t !in s.threads && chain !in s.chains &&
    s' == s.(threads := s.threads[t := Evaluation(id, 0, chain, WantLock)], chains := s.chains[chain := Tally(0, 0)])
  }

  predicate Acts(s: State, s': State, t: Thread, c: Choice) {
    Enabled(s, t, c) && s' == Act(s, t, c)
  }

  ghost predicate Next(s: State, s': State) {
    (exists t: Thread, chain: Chain, id: Id :: Calls(s, s', t, chain, id)) ||
    (exists t: Thread, c: Choice :: Acts(s, s', t, c))
  }

  // --- invariants ----------------------------------------------------------------

  /** Between taking and releasing the container's lock. */
  predicate Locked(pc: Pc) { pc != WantLock && pc != Done }

  ghost predicate LockInv(s: State) {
    forall t :: t in s.threads && Locked(s.threads[t].pc) ==>
      s.threads[t].id in s.locks && s.locks[s.threads[t].id] == t
  }

  function WasTime(pc: Pc): Option<string> {
    match pc
    case Inspect(w) => Some(w)
    case Lookup(w, _) => Some(w)
    case Add(w, _) => Some(w)
    case Hosts(w, _) => Some(w)
    case Started(w, _) => Some(w)
    case _ => None
  }

  function GoingUp(pc: Pc): Option<string> {
    match pc
    case Lookup(_, a) => Some(a)
    case Add(_, a) => Some(a)
    case Hosts(_, a) => Some(a)
    case Started(_, a) => Some(a)
    case _ => None
  }

  /** What a thread read is still what is recorded, and it goes up only to a
      time other than the one recorded. */
  predicate Fresh(s: State, e: Evaluation) {
    (WasTime(e.pc).Some? ==> WasTime(e.pc).value == StartTime(s, e.id)) &&
    (GoingUp(e.pc).Some? && WasTime(e.pc).Some? && WasTime(e.pc).value != "" ==>
      GoingUp(e.pc).value != WasTime(e.pc).value)
  }

  ghost predicate FreshInv(s: State) {
    forall t :: t in s.threads ==> Fresh(s, s.threads[t])
  }

  function Last(log: seq<Event>, id: Id): Option<Event> {
    if log == [] then None
    else if log[|log| - 1].id == id then Some(log[|log| - 1])
    else Last(log[..|log| - 1], id)
  }

  predicate Reflected(s: State, id: Id) {
    match Last(s.log, id)
    case None => true
    case Some(Up(_, startedAt)) => StartTime(s, id) == startedAt
    case Some(Stopped(_)) => StartTime(s, id) == ""
  }

  ghost predicate LogInv(s: State) {
    forall id :: Reflected(s, id)
  }

  /** Something else happened to the container between two equal ups. */
  ghost predicate Separated(log: seq<Event>, i: nat, j: nat) {
    exists k :: i < k < j < |log| && log[k].id == log[j].id && log[k] != log[j]
  }

  ghost predicate NoRepeatedUp(log: seq<Event>) {
    forall i, j :: 0 <= i < j < |log| && log[i] == log[j] && log[j].Up? && log[j].startedAt != "" ==> Separated(log, i, j)
  }

  /** The one thread of a chain that may still call CNIAdd or spawn a retry. */
  predicate Current(pc: Pc) {
    pc == WantLock || pc == ReadTime || pc.Inspect? || pc.Lookup? || pc.Add? || pc == AddFailed
  }

  ghost predicate ChainInv(s: State) {
    (forall t :: t in s.threads ==> s.threads[t].chain in s.chains) &&
    (forall t :: t in s.threads && Current(s.threads[t].pc) ==> CurrentOk(s, t)) &&
    (forall t, u :: t in s.threads && u in s.threads ==> OnlyCurrent(s, t, u)) &&
    (forall c :: c in s.chains ==> s.chains[c].latest <= MAX_RETRIES && s.chains[c].adds <= s.chains[c].latest + 1)
  }

  predicate OnlyCurrent(s: State, t: Thread, u: Thread)
    requires t in s.threads && u in s.threads
  {
    Current(s.threads[t].pc) && Current(s.threads[u].pc) && s.threads[t].chain == s.threads[u].chain ==> t == u
  }

  predicate CurrentOk(s: State, t: Thread)
    requires t in s.threads && s.threads[t].chain in s.chains
  {
    var tally := s.chains[s.threads[t].chain];
    s.threads[t].retryCount == tally.latest &&
    (s.threads[t].pc != AddFailed ==> tally.adds <= tally.latest)
  }

  ghost predicate Inv(s: State) {
    LockInv(s) && FreshInv(s) && LogInv(s) && NoRepeatedUp(s.log) && ChainInv(s)
  }

  lemma LockKept(s: State, t: Thread, c: Choice)
    requires LockInv(s) && Enabled(s, t, c)
    ensures LockInv(Act(s, t, c))
  {
  }

  lemma FreshKept(s: State, t: Thread, c: Choice)
    requires LockInv(s) && FreshInv(s) && Enabled(s, t, c)
    ensures FreshInv(Act(s, t, c))
  {
    var s' := Act(s, t, c);
    assert Fresh(s, s.threads[t]);
    forall u | u in s'.threads ensures Fresh(s', s'.threads[u]) {
      if u != t && u in s.threads {
        assert Fresh(s, s.threads[u]);
        assert Locked(s.threads[t].pc) && Locked(s.threads[u].pc) ==> s.threads[t].id != s.threads[u].id;
      }
    }
  }

  lemma {:induction false} LastIsLatest(log: seq<Event>, id: Id, i: nat)
    requires i < |log| && log[i].id == id
    ensures exists k :: i <= k < |log| && Last(log, id) == Some(log[k]) && log[k].id == id
  {
    if log[|log| - 1].id != id {
      LastIsLatest(log[..|log| - 1], id, i);
    }
  }

  lemma AppendKeepsNoRepeat(log: seq<Event>, e: Event)
    requires NoRepeatedUp(log)
    requires e.Up? && e.startedAt != "" ==> Last(log, e.id) != Some(e)
    ensures NoRepeatedUp(log + [e])
  {
    var log' := log + [e];
    forall i, j | 0 <= i < j < |log'| && log'[i] == log'[j] && log'[j].Up? && log'[j].startedAt != ""
      ensures Separated(log', i, j)
    {
      if j < |log| {
        assert Separated(log, i, j);
        var k :| i < k < j && log[k].id == log[j].id && log[k] != log[j];
        assert log'[k].id == log'[j].id && log'[k] != log'[j];
      } else {
        LastIsLatest(log, e.id, i);
        var k :| i <= k < |log| && Last(log, e.id) == Some(log[k]) && log[k].id == e.id;
        assert log'[k].id == log'[j].id && log'[k] != log'[j];
      }
    }
  }

  predicate Records(pc: Pc) { pc.Started? || pc == Down }

  lemma QuietStepKeepsLog(s: State, t: Thread, c: Choice)
    requires LogInv(s) && NoRepeatedUp(s.log) && Enabled(s, t, c) && !Records(s.threads[t].pc)
    ensures LogInv(Act(s, t, c)) && NoRepeatedUp(Act(s, t, c).log)
  {
    assert Act(s, t, c).log == s.log && Act(s, t, c).startTimes == s.startTimes;
    forall id ensures Reflected(Act(s, t, c), id) { assert Reflected(s, id); }
  }

  lemma RecordingStepKeepsLog(s: State, t: Thread, c: Choice)
    requires FreshInv(s) && LogInv(s) && NoRepeatedUp(s.log) && Enabled(s, t, c) && Records(s.threads[t].pc)
    ensures LogInv(Act(s, t, c)) && NoRepeatedUp(Act(s, t, c).log)
  {
    var e := s.threads[t];
    var event := if e.pc.Started? then Up(e.id, e.pc.startedAt) else Event.Stopped(e.id);
    var log' := s.log + [event];
    assert Act(s, t, c).log == log' && log'[..|s.log|] == s.log;
    assert Fresh(s, e) && Reflected(s, e.id);
    AppendKeepsNoRepeat(s.log, event);
    forall id ensures Reflected(Act(s, t, c), id) { assert Reflected(s, id); }
  }

  lemma LogKept(s: State, t: Thread, c: Choice)
    requires FreshInv(s) && LogInv(s) && NoRepeatedUp(s.log) && Enabled(s, t, c)
    ensures LogInv(Act(s, t, c)) && NoRepeatedUp(Act(s, t, c).log)
  {
    if Records(s.threads[t].pc) {
      RecordingStepKeepsLog(s, t, c);
    } else {
      QuietStepKeepsLog(s, t, c);
    }
  }

  /** What one step does to its chain: nothing, one CNIAdd call, or one retry. */
  ghost predicate Effect(s: State, s': State, t: Thread, v: Thread)
    requires t in s.threads && s.threads[t].chain in s.chains
  {
    && s'.threads.Keys == s.threads.Keys + {t, v} && s'.chains.Keys == s.chains.Keys
    && (forall u :: u in s.threads && u != t ==> s'.threads[u] == s.threads[u])
    && s'.threads[t].chain == s.threads[t].chain && s'.threads[t].retryCount == s.threads[t].retryCount
    && (Current(s'.threads[t].pc) ==> Current(s.threads[t].pc) && s.threads[t].pc != AddFailed)
    && var c := s.threads[t].chain;
    && (forall x :: x in s.chains && x != c ==> s'.chains[x] == s.chains[x])
    && if v == t then
         s'.chains[c].latest == s.chains[c].latest &&
         (s'.chains[c].adds == s.chains[c].adds ||
          (s'.chains[c].adds == s.chains[c].adds + 1 && Current(s.threads[t].pc) && s.threads[t].pc != AddFailed &&
           (Current(s'.threads[t].pc) ==> s'.threads[t].pc == AddFailed)))
       else
         v !in s.threads && s.threads[t].pc == AddFailed && s.threads[t].retryCount < MAX_RETRIES &&
         s'.threads[v].chain == c && s'.threads[v].retryCount == s.threads[t].retryCount + 1 &&
         s'.chains[c] == Tally(s.threads[t].retryCount + 1, s.chains[c].adds) && !Current(s'.threads[t].pc)
  }

  lemma RetryHasEffect(s: State, t: Thread, c: Choice)
    requires Enabled(s, t, c) && s.threads[t].pc == AddFailed
    ensures Effect(s, Act(s, t, c), t, if s.threads[t].retryCount < MAX_RETRIES then c.spawned else t)
  {
  }

  lemma OtherStepHasEffect(s: State, t: Thread, c: Choice)
    requires Enabled(s, t, c) && s.threads[t].pc != AddFailed
    ensures Effect(s, Act(s, t, c), t, t)
  {
  }

  lemma ActHasEffect(s: State, t: Thread, c: Choice) returns (v: Thread)
    requires Enabled(s, t, c)
    ensures Effect(s, Act(s, t, c), t, v)
  {
    if s.threads[t].pc == AddFailed {
      v := if s.threads[t].retryCount < MAX_RETRIES then c.spawned else t;
      RetryHasEffect(s, t, c);
    } else {
      v := t;
      OtherStepHasEffect(s, t, c);
    }
  }

  lemma OnlyCurrentKept(s: State, s': State, t: Thread, x: Thread, u: Thread, v: Thread)
    requires ChainInv(s) && t in s.threads && Effect(s, s', t, x) && u in s'.threads && v in s'.threads
    ensures OnlyCurrent(s', u, v)
  {
    assert u in s.threads && v in s.threads ==> OnlyCurrent(s, u, v);
    assert u in s.threads ==> OnlyCurrent(s, u, t);
    assert v in s.threads ==> OnlyCurrent(s, t, v);
  }

  lemma CurrentKept(s: State, s': State, t: Thread, x: Thread, u: Thread)
    requires ChainInv(s) && t in s.threads && Effect(s, s', t, x) && u in s'.threads
    ensures s'.threads[u].chain in s'.chains
    ensures Current(s'.threads[u].pc) ==> CurrentOk(s', u)
  {
    assert u in s.threads && Current(s.threads[u].pc) ==> CurrentOk(s, u);
    assert Current(s.threads[t].pc) ==> CurrentOk(s, t);
    assert u in s.threads ==> OnlyCurrent(s, u, t);
  }

  lemma ChainKept(s: State, t: Thread, c: Choice)
    requires ChainInv(s) && Enabled(s, t, c)
    ensures ChainInv(Act(s, t, c))
  {
    var x := ActHasEffect(s, t, c);
    EffectKeepsChains(s, Act(s, t, c), t, x);
  }

  lemma EffectKeepsChains(s: State, s': State, t: Thread, x: Thread)
    requires ChainInv(s) && t in s.threads && Effect(s, s', t, x)
    ensures ChainInv(s')
  {
    assert Current(s.threads[t].pc) ==> CurrentOk(s, t);
    forall u | u in s'.threads
      ensures s'.threads[u].chain in s'.chains && (Current(s'.threads[u].pc) ==> CurrentOk(s', u))
    {
      CurrentKept(s, s', t, x, u);
    }
    forall u, v | u in s'.threads && v in s'.threads ensures OnlyCurrent(s', u, v) {
      OnlyCurrentKept(s, s', t, x, u, v);
    }
  }

  lemma CallKeepsInv(s: State, s': State, t: Thread, chain: Chain, id: Id)
    requires Inv(s) && Calls(s, s', t, chain, id)
    ensures Inv(s')
  {
    forall u | u in s'.threads ensures Fresh(s', s'.threads[u]) { assert u in s.threads ==> Fresh(s, s.threads[u]); }
    forall u | u in s'.threads && Current(s'.threads[u].pc) ensures CurrentOk(s', u) {
      assert u in s.threads ==> CurrentOk(s, u);
    }
    forall x ensures Reflected(s', x) { assert Reflected(s, x); }
  }

  lemma StepKeepsInv(s: State, s': State)
    requires Inv(s) && Next(s, s')
    ensures Inv(s')
  {
    if t: Thread, c: Choice :| Acts(s, s', t, c) {
      LockKept(s, t, c);
      FreshKept(s, t, c);
      LogKept(s, t, c);
      ChainKept(s, t, c);
    } else {
      var t: Thread, chain: Chain, id: Id :| Calls(s, s', t, chain, id);
      CallKeepsInv(s, s', t, chain, id);
    }
  }

  // --- whole runs -------------------------------------------------------------

  /** `newState` may already have recorded containers it found networked. */
  predicate Initial(s: State) {
    s.locks == map[] && s.threads == map[] && s.log == [] && s.chains == map[]
  }

  ghost predicate Linked(trace: seq<State>) {
    forall i :: 0 <= i < |trace| - 1 ==> Next(trace[i], trace[i + 1])
  }

  ghost predicate Run(trace: seq<State>) {
    trace != [] && Initial(trace[0]) && Linked(trace)
  }

  lemma {:induction false} RunKeepsInv(trace: seq<State>, n: nat)
    requires Run(trace) && n < |trace|
    ensures Inv(trace[n])
  {
    if n > 0 {
      RunKeepsInv(trace, n - 1);
      StepKeepsInv(trace[n - 1], trace[n]);
    }
  }

  predicate Interrupts(e: Event, up: Event)
    requires up.Up?
  {
    e.id == up.id && (e.Stopped? || e.startedAt != up.startedAt)
  }

  /** Two successful ups of one container with the same start time always have a
      stop, or an up with another start time, between them. */
  lemma UpsAreSeparated(trace: seq<State>, n: nat, i: nat, j: nat)
    requires Run(trace) && n < |trace|
    requires i < j < |trace[n].log| && trace[n].log[i] == trace[n].log[j]
    requires trace[n].log[j].Up? && trace[n].log[j].startedAt != ""
    ensures exists k :: i < k < j && Interrupts(trace[n].log[k], trace[n].log[j])
  {
    RunKeepsInv(trace, n);
    var log := trace[n].log;
    assert Separated(log, i, j);
    var k :| i < k < j < |log| && log[k].id == log[j].id && log[k] != log[j];
    assert Interrupts(log[k], log[j]);
  }

  /** The state with one more thread, holding the container's lock. */
  function Holding(s: State, t: Thread, chain: Chain, id: Id, pc: Pc, adds: nat): State {
    s.(locks := s.locks[id := t], threads := s.threads[t := Evaluation(id, 0, chain, pc)],
       chains := s.chains[chain := Tally(0, adds)])
  }

  const SMOOTH := Choice(true, Container(true, ""), 0)

  /** Consecutive statements of an undisturbed evaluation of an unrecorded container. */
  predicate Follows(pc: Pc, pc': Pc) {
    match pc
    case ReadTime => pc' == Inspect("")
    case Inspect(_) => pc' == Lookup("", "")
    case Lookup(_, _) => pc' == Add("", "")
    case Hosts(_, _) => pc' == Started("", "")
    case _ => false
  }

  lemma SmoothStep(s: State, t: Thread, chain: Chain, id: Id, pc: Pc, pc': Pc, adds: nat)
    requires Follows(pc, pc') && StartTime(s, id) == "" && (WasTime(pc).Some? ==> WasTime(pc).value == "")
    requires GoingUp(pc).Some? ==> GoingUp(pc).value == ""
    ensures Next(Holding(s, t, chain, id, pc, adds), Holding(s, t, chain, id, pc', adds))
  {
    var now := Holding(s, t, chain, id, pc, adds);
    assert Act(now, t, SMOOTH).threads == Holding(s, t, chain, id, pc', adds).threads;
    assert Acts(now, Act(now, t, SMOOTH), t, SMOOTH);
  }

  lemma AddStep(s: State, t: Thread, chain: Chain, id: Id)
    ensures Next(Holding(s, t, chain, id, Add("", ""), 0), Holding(s, t, chain, id, Hosts("", ""), 1))
  {
    var now, next := Holding(s, t, chain, id, Add("", ""), 0), Holding(s, t, chain, id, Hosts("", ""), 1);
    assert Act(now, t, SMOOTH).threads == next.threads && Act(now, t, SMOOTH).chains == next.chains;
    assert Acts(now, Act(now, t, SMOOTH), t, SMOOTH);
  }

  lemma LockStep(s: State, s': State, t: Thread, chain: Chain, id: Id)
    requires Calls(s, s', t, chain, id) && id !in s.locks
    ensures Next(s, s') && Next(s', Holding(s, t, chain, id, ReadTime, 0))
  {
    var next := Holding(s, t, chain, id, ReadTime, 0);
    assert Act(s', t, SMOOTH).threads == next.threads;
    assert Acts(s', Act(s', t, SMOOTH), t, SMOOTH);
  }

  /** Recording the up and giving the lock back. */
  lemma FinishSteps(s: State, t: Thread, chain: Chain, id: Id) returns (recorded: State, end: State)
    ensures Next(Holding(s, t, chain, id, Started("", ""), 1), recorded) && Next(recorded, end)
    ensures end.log == s.log + [Up(id, "")] && id !in end.locks && StartTime(end, id) == ""
    ensures end.threads.Keys == s.threads.Keys + {t} && end.chains.Keys == s.chains.Keys + {chain}
  {
    var now := Holding(s, t, chain, id, Started("", ""), 1);
    recorded := Act(now, t, SMOOTH);
    assert Acts(now, recorded, t, SMOOTH);
    end := Act(recorded, t, SMOOTH);
    assert Acts(recorded, end, t, SMOOTH);
  }

  ghost function LinkOn(trace: seq<State>, next: State): (longer: seq<State>)
    requires trace != [] && Linked(trace) && Next(trace[|trace| - 1], next)
    ensures longer != [] && Linked(longer) && longer[0] == trace[0] && longer[|longer| - 1] == next
  {
    trace + [next]
  }

  /** An undisturbed evaluation of a container that is not recorded brings it up. */
  lemma UpOnce(s: State, t: Thread, chain: Chain, id: Id) returns (trace: seq<State>)
    requires t !in s.threads && chain !in s.chains && id !in s.locks && StartTime(s, id) == ""
    ensures trace != [] && trace[0] == s && Linked(trace)
    ensures var end := trace[|trace| - 1];
      end.log == s.log + [Up(id, "")] && id !in end.locks && StartTime(end, id) == "" &&
      end.threads.Keys == s.threads.Keys + {t} && end.chains.Keys == s.chains.Keys + {chain}
  {
    var called := s.(threads := s.threads[t := Evaluation(id, 0, chain, WantLock)], chains := s.chains[chain := Tally(0, 0)]);
    LockStep(s, called, t, chain, id);
    trace := LinkOn(LinkOn([s], called), Holding(s, t, chain, id, ReadTime, 0));
    SmoothStep(s, t, chain, id, ReadTime, Inspect(""), 0);
    trace := LinkOn(trace, Holding(s, t, chain, id, Inspect(""), 0));
    SmoothStep(s, t, chain, id, Inspect(""), Lookup("", ""), 0);
    trace := LinkOn(trace, Holding(s, t, chain, id, Lookup("", ""), 0));
    SmoothStep(s, t, chain, id, Lookup("", ""), Add("", ""), 0);
    trace := LinkOn(trace, Holding(s, t, chain, id, Add("", ""), 0));
    AddStep(s, t, chain, id);
    trace := LinkOn(trace, Holding(s, t, chain, id, Hosts("", ""), 1));
    SmoothStep(s, t, chain, id, Hosts("", ""), Started("", ""), 1);
    trace := LinkOn(trace, Holding(s, t, chain, id, Started("", ""), 1));
    var recorded, end := FinishSteps(s, t, chain, id);
    trace := LinkOn(LinkOn(trace, recorded), end);
  }

  /** In every run, equal ups with this start time have something between them. */
  ghost predicate AlwaysSeparated(startedAt: string) {
    forall trace: seq<State>, n: nat, i: nat, j: nat ::
      Run(trace) && n < |trace| && RepeatedUp(trace[n].log, i, j, startedAt) ==> Interrupted(trace[n].log, i, j)
  }

  predicate RepeatedUp(log: seq<Event>, i: nat, j: nat, startedAt: string) {
    i < j < |log| && log[i] == log[j] && log[j].Up? && log[j].startedAt == startedAt
  }

  ghost predicate Interrupted(log: seq<Event>, i: nat, j: nat)
    requires i < j < |log| && log[j].Up?
  {
    exists k :: i < k < j && Interrupts(log[k], log[j])
  }

  /** An empty start time is recorded but reads like no record, so such a
      container is brought up again and again. */
  lemma EmptyTimeRepeats(id: Id) returns (trace: seq<State>)
    ensures Run(trace) && trace[|trace| - 1].log == [Up(id, ""), Up(id, "")]
  {
    var start := State(map[], map[], map[], [], map[]);
    var first := UpOnce(start, 1, 1, id);
    var middle := first[|first| - 1];
    var second := UpOnce(middle, 2, 2, id);
    trace := first + second[1..];
    forall i | 0 <= i < |trace| - 1 ensures Next(trace[i], trace[i + 1]) {
      if i >= |first| - 1 {
        assert trace[i] == second[i - (|first| - 1)] && trace[i + 1] == second[i + 1 - (|first| - 1)];
      }
    }
    assert trace[|trace| - 1] == second[|second| - 1];
  }

  /** Repeated ups are always separated exactly for non-empty start times. */
  lemma SeparatedExactlyWhen(startedAt: string)
    ensures AlwaysSeparated(startedAt) <==> startedAt != ""
  {
    if startedAt == "" {
      var trace := EmptyTimeRepeats("");
      var n := |trace| - 1;
      assert RepeatedUp(trace[n].log, 0, 1, "");
      assert !Interrupted(trace[n].log, 0, 1);
    } else {
      forall trace: seq<State>, n: nat, i: nat, j: nat |
        Run(trace) && n < |trace| && RepeatedUp(trace[n].log, i, j, startedAt)
        ensures Interrupted(trace[n].log, i, j)
      {
        UpsAreSeparated(trace, n, i, j);
      }
    }
  }

  /** One `Evaluate` call and all its retries make at most sixteen CNIAdd calls. */
  lemma AddsAreBounded(trace: seq<State>, n: nat, c: Chain)
    requires Run(trace) && n < |trace| && c in trace[n].chains
    ensures trace[n].chains[c].adds <= 16
  {
    RunKeepsInv(trace, n);
  }
}
