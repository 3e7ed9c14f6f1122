/** The keyed lock as interleaved atomic steps of any number of callers. Each
    caller is one `Lock` call together with the unlock closure it returned. */
module KeyLock {
  import opened Wrappers

  type Key = string
  type Caller = nat
  type EntryId = nat

  /** Where a caller stands; the comments give the statement it is about to run. */
  datatype Pc =
    | WantMap                     // m.mu.Lock() in Lock
    | InMap                       // look the entry up, create it if missing
    | Found(e: EntryId)           // e.refs++
    | Counted(e: EntryId)         // m.mu.Unlock()
    | Waiting(e: EntryId)         // e.mu.Lock()
    | Holding(e: EntryId)         // the lock is held; first call of the closure: e.mu.Unlock()
    | Released(e: EntryId)        // m.mu.Lock() in the closure
    | InMapAgain(e: EntryId)      // e.refs--
    | Dropped(e: EntryId)         // if e.refs == 0, delete(m.entries, key)
    | Leaving                     // m.mu.Unlock()
    | Done

  datatype Call = Call(key: Key, pc: Pc)

  /** `key` records which key an entry was created for; the program keeps it
      only in the map. */
  datatype Entry = Entry(key: Key, owner: Option<Caller>, refs: int)

  datatype State = State(
    mu: Option<Caller>, entries: map<Key, EntryId>, heap: map<EntryId, Entry>,
    calls: map<Caller, Call>, unused: EntryId)

  const START := State(None, map[], map[], map[], 0)

  // --- steps -----------------------------------------------------------------

  ghost predicate WellFormed(s: State) {
    forall t :: t in s.calls && EntryOf(s.calls[t].pc).Some? ==> EntryOf(s.calls[t].pc).value in s.heap
  }

  ghost predicate Enabled(s: State, t: Caller)
    requires WellFormed(s)
  {
    t in s.calls &&
    match s.calls[t].pc
    case WantMap => s.mu == None
    case Released(_) => s.mu == None
    case Waiting(e) => s.heap[e].owner == None
    case Done => false
    case _ => true
  }

  function At(s: State, t: Caller, pc: Pc): State
    requires t in s.calls
  {
    s.(calls := s.calls[t := s.calls[t].(pc := pc)])
  }

  function Put(s: State, e: EntryId, entry: Entry): State { s.(heap := s.heap[e := entry]) }

  /** The next atomic step of a caller that can run. */
  ghost function Advance(s: State, t: Caller): State
    requires WellFormed(s) && Enabled(s, t)
  {
    var key := s.calls[t].key;
    match s.calls[t].pc
    case WantMap => At(s.(mu := Some(t)), t, InMap)
    case InMap =>
      if key in s.entries then At(s, t, Found(s.entries[key]))
      else At(Put(s.(entries := s.entries[key := s.unused], unused := s.unused + 1), s.unused, Entry(key, None, 0)),
              t, Found(s.unused))
    case Found(e) => At(Put(s, e, s.heap[e].(refs := s.heap[e].refs + 1)), t, Counted(e))
    case Counted(e) => At(s.(mu := None), t, Waiting(e))
    case Waiting(e) => At(Put(s, e, s.heap[e].(owner := Some(t))), t, Holding(e))
    case Holding(e) => At(Put(s, e, s.heap[e].(owner := None)), t, Released(e))
    case Released(e) => At(s.(mu := Some(t)), t, InMapAgain(e))
    case InMapAgain(e) => At(Put(s, e, s.heap[e].(refs := s.heap[e].refs - 1)), t, Dropped(e))
    case Dropped(e) => At(if s.heap[e].refs == 0 then s.(entries := s.entries - {key}) else s, t, Leaving)
    case Leaving => At(s.(mu := None), t, Done)
  }

  /** Calling the closure: `sync.Once` lets only the first call do anything. */
  ghost function Unlock(s: State, t: Caller): State
    requires WellFormed(s) && t in s.calls
  {
    if s.calls[t].pc.Holding? then Advance(s, t) else s
  }

  predicate PastHolding(pc: Pc) {
    pc.Released? || pc.InMapAgain? || pc.Dropped? || pc.Leaving? || pc.Done?
  }

  predicate Spawns(s: State, s': State, t: Caller, key: Key) {
    t !in s.calls && s' == s.(calls := s.calls[t := Call(key, WantMap)])
  }

  ghost predicate Steps(s: State, s': State, t: Caller)
    requires WellFormed(s)
  {
    Enabled(s, t) && s' == Advance(s, t)
  }

  ghost predicate Next(s: State, s': State) {
    WellFormed(s) &&
    ((exists t: Caller, key: Key :: Spawns(s, s', t, key)) ||
     (exists t: Caller :: Steps(s, s', t)) ||
     (exists t: Caller :: t in s.calls && PastHolding(s.calls[t].pc) && s' == Unlock(s, t)))
  }

  // --- the invariant ------------------------------------------------------------

  predicate Critical(pc: Pc) {
    pc.InMap? || pc.Found? || pc.Counted? || pc.InMapAgain? || pc.Dropped? || pc.Leaving?
  }

  /** Waiting on, holding or still releasing the entry. */
  predicate Uses(pc: Pc, e: EntryId) {
    pc == Counted(e) || pc == Waiting(e) || pc == Holding(e) || pc == Released(e) || pc == InMapAgain(e)
  }

  /** The caller's local variable `e`, while it is live. */
  function EntryOf(pc: Pc): Option<EntryId> {
    match pc
    case Found(e) => Some(e)
    case Counted(e) => Some(e)
    case Waiting(e) => Some(e)
    case Holding(e) => Some(e)
    case Released(e) => Some(e)
    case InMapAgain(e) => Some(e)
    case Dropped(e) => Some(e)
    case _ => None
  }

  function Users(calls: map<Caller, Call>, e: EntryId): set<Caller> {
    set t | t in calls && Uses(calls[t].pc, e)
  }

  predicate Active(pc: Pc) { pc != WantMap && pc != Done }

  ghost predicate MutexInv(s: State) {
    forall t :: s.mu == Some(t) <==> t in s.calls && Critical(s.calls[t].pc)
  }

  /** All callers of a key that know an entry know the one the map holds. */
  predicate Shares(s: State, call: Call) {
    match EntryOf(call.pc)
    case None => true
    case Some(e) => e in s.heap && call.key in s.entries && s.entries[call.key] == e
  }

  ghost predicate SharingInv(s: State) {
    (forall t :: t in s.calls ==> Shares(s, s.calls[t])) &&
    (forall k :: k in s.entries ==> s.entries[k] in s.heap && s.heap[s.entries[k]].key == k)
  }

  predicate OwnerOk(s: State, e: EntryId, t: Caller)
    requires e in s.heap
  {
    s.heap[e].owner == Some(t) <==> t in s.calls && s.calls[t].pc == Holding(e)
  }

  ghost predicate OwnerInv(s: State) {
    forall e, t :: e in s.heap ==> OwnerOk(s, e, t)
  }

  ghost predicate CountInv(s: State) {
    forall e :: e in s.heap ==> s.heap[e].refs == |Users(s.calls, e)|
  }

  ghost predicate UnusedInv(s: State) {
    (forall e :: e in s.heap ==> e < s.unused)
  }

  /** An unused entry is in the map only while its creator or remover has m.mu. */
  predicate LiveOk(s: State, k: Key)
    requires k in s.entries && s.entries[k] in s.heap
  {
    s.heap[s.entries[k]].refs == 0 ==>
      s.mu.Some? && s.mu.value in s.calls &&
      (s.calls[s.mu.value].pc == Found(s.entries[k]) || s.calls[s.mu.value].pc == Dropped(s.entries[k]))
  }

  ghost predicate LiveInv(s: State) {
    forall k :: k in s.entries && s.entries[k] in s.heap ==> LiveOk(s, k)
  }

  ghost predicate Inv(s: State) {
    WellFormed(s) && MutexInv(s) && SharingInv(s) && OwnerInv(s) && CountInv(s) && UnusedInv(s) && LiveInv(s)
  }

  lemma UsersUnchanged(s: State, t: Caller, pc: Pc, e: EntryId)
    requires t in s.calls && (Uses(pc, e) <==> Uses(s.calls[t].pc, e))
    ensures Users(At(s, t, pc).calls, e) == Users(s.calls, e)
  {
  }

  lemma UsersGain(s: State, t: Caller, pc: Pc, e: EntryId)
    requires t in s.calls && Uses(pc, e) && !Uses(s.calls[t].pc, e)
    ensures |Users(At(s, t, pc).calls, e)| == |Users(s.calls, e)| + 1
  {
    assert Users(At(s, t, pc).calls, e) == Users(s.calls, e) + {t};
  }

  lemma UsersLose(s: State, t: Caller, pc: Pc, e: EntryId)
    requires t in s.calls && !Uses(pc, e) && Uses(s.calls[t].pc, e)
    ensures |Users(At(s, t, pc).calls, e)| == |Users(s.calls, e)| - 1
  {
    assert Users(s.calls, e) == Users(At(s, t, pc).calls, e) + {t};
  }

  lemma CountKept(s: State, t: Caller)
    requires WellFormed(s) && CountInv(s) && UnusedInv(s) && Enabled(s, t)
    ensures CountInv(Advance(s, t)) && UnusedInv(Advance(s, t))
  {
    forall e | e in Advance(s, t).heap
      ensures Advance(s, t).heap[e].refs == |Users(Advance(s, t).calls, e)| && e < Advance(s, t).unused
    {
      CountKeptFor(s, t, e);
    }
  }

  function Change(pc: Pc, pc': Pc, e: EntryId): int {
    (if Uses(pc', e) then 1 else 0) - if Uses(pc, e) then 1 else 0
  }

  /** The program's counter moves exactly when the caller starts or stops using
      the entry. */
  lemma RefsFollow(s: State, t: Caller, e: EntryId)
    requires WellFormed(s) && UnusedInv(s) && Enabled(s, t) && e in Advance(s, t).heap
    ensures Advance(s, t).heap[e].refs
         == (if e in s.heap then s.heap[e].refs else 0) + Change(s.calls[t].pc, Advance(s, t).calls[t].pc, e)
    ensures Advance(s, t).calls == At(s, t, Advance(s, t).calls[t].pc).calls
    ensures e < Advance(s, t).unused
  {
  }

  lemma CountKeptFor(s: State, t: Caller, e: EntryId)
    requires WellFormed(s) && CountInv(s) && UnusedInv(s) && Enabled(s, t) && e in Advance(s, t).heap
    ensures Advance(s, t).heap[e].refs == |Users(Advance(s, t).calls, e)|
    ensures e < Advance(s, t).unused
  {
    var pc, pc' := s.calls[t].pc, Advance(s, t).calls[t].pc;
    RefsFollow(s, t, e);
    if e !in s.heap {
      assert Users(s.calls, e) == {};
    }
    if Uses(pc, e) && !Uses(pc', e) {
      UsersLose(s, t, pc', e);
    } else if !Uses(pc, e) && Uses(pc', e) {
      UsersGain(s, t, pc', e);
    } else {
      UsersUnchanged(s, t, pc', e);
    }
  }

  lemma MutexKept(s: State, t: Caller)
    requires WellFormed(s) && MutexInv(s) && Enabled(s, t)
    ensures MutexInv(Advance(s, t))
  {
  }

  lemma OwnerKept(s: State, t: Caller)
    requires WellFormed(s) && OwnerInv(s) && UnusedInv(s) && Enabled(s, t)
    ensures OwnerInv(Advance(s, t))
  {
    var s' := Advance(s, t);
    forall e, u: Caller | e in s'.heap ensures OwnerOk(s', e, u) {
      if e in s.heap {
        assert OwnerOk(s, e, u) && OwnerOk(s, e, t);
      } else {
        assert u in s.calls ==> EntryOf(s.calls[u].pc) != Some(e);
      }
    }
  }

  /** Deleting an entry with no users cannot strand anyone: whoever still knows
      it would hold m.mu, and the deleting caller does. */
  lemma DeleteStrandsNobody(s: State, t: Caller, u: Caller)
    requires WellFormed(s) && MutexInv(s) && SharingInv(s) && CountInv(s)
    requires t in s.calls && s.calls[t].pc.Dropped? && s.heap[s.calls[t].pc.e].refs == 0
    requires u in s.calls && u != t && EntryOf(s.calls[u].pc).Some?
    ensures s.calls[u].key != s.calls[t].key
  {
    var e := s.calls[t].pc.e;
    assert Shares(s, s.calls[t]) && Shares(s, s.calls[u]);
    assert Users(s.calls, e) == {};
    assert u !in Users(s.calls, e);
    assert s.mu == Some(t);
  }

  lemma OwnShareKept(s: State, t: Caller)
    requires WellFormed(s) && SharingInv(s) && Enabled(s, t)
    ensures Shares(Advance(s, t), Advance(s, t).calls[t])
  {
    assert Shares(s, s.calls[t]);
  }

  lemma OtherShareKept(s: State, t: Caller, u: Caller)
    requires WellFormed(s) && MutexInv(s) && SharingInv(s) && CountInv(s) && UnusedInv(s) && Enabled(s, t)
    requires u in s.calls && u != t
    ensures Shares(Advance(s, t), Advance(s, t).calls[u])
  {
    assert Shares(s, s.calls[t]) && Shares(s, s.calls[u]);
    if s.calls[t].pc.Dropped? && s.heap[s.calls[t].pc.e].refs == 0 && EntryOf(s.calls[u].pc).Some? {
      DeleteStrandsNobody(s, t, u);
    }
  }

  lemma SharingKept(s: State, t: Caller)
    requires WellFormed(s) && MutexInv(s) && SharingInv(s) && CountInv(s) && UnusedInv(s) && Enabled(s, t)
    ensures WellFormed(Advance(s, t)) && SharingInv(Advance(s, t))
  {
    assert Shares(s, s.calls[t]);
    forall u | u in Advance(s, t).calls ensures Shares(Advance(s, t), Advance(s, t).calls[u]) {
      if u == t {
        OwnShareKept(s, t);
      } else {
        OtherShareKept(s, t, u);
      }
    }
  }

  predicate Releases(pc: Pc) { pc.Counted? || pc.Leaving? }

  /** Steps that give `m.mu` back leave no unused entry in the map. */
  lemma LiveOnRelease(s: State, t: Caller, k: Key)
    requires WellFormed(s) && MutexInv(s) && LiveInv(s) && Enabled(s, t) && Releases(s.calls[t].pc)
    requires k in Advance(s, t).entries && Advance(s, t).entries[k] in Advance(s, t).heap
    ensures LiveOk(Advance(s, t), k)
  {
    assert LiveOk(s, k);
  }

  predicate Counts(pc: Pc) { pc.Found? || pc.InMapAgain? }

  /** Counting up or down: only the caller's own entry can become unused. */
  lemma LiveOnCount(s: State, t: Caller, k: Key)
    requires WellFormed(s) && MutexInv(s) && SharingInv(s) && LiveInv(s) && Enabled(s, t)
    requires CountInv(Advance(s, t)) && Counts(s.calls[t].pc)
    requires k in Advance(s, t).entries && Advance(s, t).entries[k] in Advance(s, t).heap
    ensures LiveOk(Advance(s, t), k)
  {
    var s' := Advance(s, t);
    assert Shares(s, s.calls[t]);
    assert LiveOk(s, k);
    assert Uses(s'.calls[t].pc, s'.entries[k]) ==> t in Users(s'.calls, s'.entries[k]);
  }

  lemma LiveOtherwise(s: State, t: Caller, k: Key)
    requires WellFormed(s) && MutexInv(s) && SharingInv(s) && LiveInv(s) && UnusedInv(s) && Enabled(s, t)
    requires !Releases(s.calls[t].pc) && !Counts(s.calls[t].pc)
    requires k in Advance(s, t).entries && Advance(s, t).entries[k] in Advance(s, t).heap
    ensures LiveOk(Advance(s, t), k)
  {
    assert Shares(s, s.calls[t]);
    assert k in s.entries ==> LiveOk(s, k);
  }

  lemma LiveKept(s: State, t: Caller)
    requires Inv(s) && Enabled(s, t)
    ensures LiveInv(Advance(s, t))
  {
    CountKept(s, t);
    forall k | k in Advance(s, t).entries && Advance(s, t).entries[k] in Advance(s, t).heap ensures LiveOk(Advance(s, t), k) {
      if Releases(s.calls[t].pc) {
        LiveOnRelease(s, t, k);
      } else if Counts(s.calls[t].pc) {
        LiveOnCount(s, t, k);
      } else {
        LiveOtherwise(s, t, k);
      }
    }
  }

  /** A new caller uses no entry yet. */
  lemma SpawnKeepsUsers(s: State, s': State, t: Caller, key: Key)
    requires Spawns(s, s', t, key)
    ensures forall e :: Users(s'.calls, e) == Users(s.calls, e)
  {
    forall e ensures Users(s'.calls, e) == Users(s.calls, e) {}
  }

  lemma SpawnKeepsCounts(s: State, s': State, t: Caller, key: Key)
    requires OwnerInv(s) && CountInv(s) && LiveInv(s) && Spawns(s, s', t, key)
    ensures OwnerInv(s') && CountInv(s') && LiveInv(s')
  {
    SpawnKeepsUsers(s, s', t, key);
    forall e, u: Caller | e in s'.heap ensures OwnerOk(s', e, u) { assert OwnerOk(s, e, u); }
    forall k | k in s'.entries && s'.entries[k] in s'.heap ensures LiveOk(s', k) { assert LiveOk(s, k); }
  }

  lemma SpawnKeepsInv(s: State, s': State, t: Caller, key: Key)
    requires Inv(s) && Spawns(s, s', t, key)
    ensures Inv(s')
  {
    SpawnKeepsCounts(s, s', t, key);
    forall u | u in s'.calls ensures Shares(s', s'.calls[u]) { assert u in s.calls ==> Shares(s, s.calls[u]); }
  }

  lemma AdvanceKeepsInv(s: State, t: Caller)
    requires Inv(s) && Enabled(s, t)
    ensures Inv(Advance(s, t))
  {
    CountKept(s, t);
    MutexKept(s, t);
    OwnerKept(s, t);
    SharingKept(s, t);
    LiveKept(s, t);
  }

  lemma StepKeepsInv(s: State, s': State)
    requires Inv(s) && Next(s, s')
    ensures Inv(s')
  {
    if t: Caller :| Steps(s, s', t) {
      AdvanceKeepsInv(s, t);
    } else if t: Caller, key: Key :| Spawns(s, s', t, key) {
      SpawnKeepsInv(s, s', t, key);
    }
  }

  // --- whole runs --------------------------------------------------------------

  /** Any interleaving of any number of callers, from the zero value of `Map`. */
  ghost predicate Run(trace: seq<State>) {
    trace != [] && trace[0] == START && forall i :: 0 <= i < |trace| - 1 ==> Next(trace[i], trace[i + 1])
  }

  lemma {:induction false} RunKeepsInv(trace: seq<State>, i: nat)
    requires Run(trace) && i < |trace|
    ensures Inv(trace[i])
  {
    if i > 0 {
      RunKeepsInv(trace, i - 1);
      StepKeepsInv(trace[i - 1], trace[i]);
    }
  }

  /** `refs` counts exactly the callers waiting on, holding or still releasing the entry. */
  lemma RefsAreExact(trace: seq<State>, i: nat, e: EntryId)
    requires Run(trace) && i < |trace| && e in trace[i].heap
    ensures trace[i].heap[e].refs == |Users(trace[i].calls, e)|
  {
    RunKeepsInv(trace, i);
  }

  /** Callers of one key that know an entry know the same one, and it is the one
      in the map; so at most one of them holds the lock. */
  lemma OneEntryPerKey(trace: seq<State>, i: nat, t: Caller, u: Caller)
    requires Run(trace) && i < |trace|
    requires t in trace[i].calls && u in trace[i].calls && trace[i].calls[t].key == trace[i].calls[u].key
    ensures var s := trace[i]; var et, eu := EntryOf(s.calls[t].pc), EntryOf(s.calls[u].pc);
      && (et.Some? ==> s.calls[t].key in s.entries && s.entries[s.calls[t].key] == et.value)
      && (et.Some? && eu.Some? ==> et == eu)
      && (s.calls[t].pc.Holding? && s.calls[u].pc.Holding? ==> t == u)
  {
    RunKeepsInv(trace, i);
    var s := trace[i];
    assert Shares(s, s.calls[t]) && Shares(s, s.calls[u]);
    if s.calls[t].pc.Holding? && s.calls[u].pc.Holding? {
      assert OwnerOk(s, s.calls[t].pc.e, t) && OwnerOk(s, s.calls[t].pc.e, u);
    }
  }

  lemma MutexHolder(s: State)
    requires MutexInv(s) && s.mu.Some?
    ensures s.mu.value in s.calls && Critical(s.calls[s.mu.value].pc)
  {
    assert s.mu == Some(s.mu.value);
  }

  /** Nothing is retained once nobody is between locking and having unlocked. */
  lemma QuietMapIsEmpty(trace: seq<State>, i: nat)
    requires Run(trace) && i < |trace|
    requires forall t :: t in trace[i].calls ==> !Active(trace[i].calls[t].pc)
    ensures trace[i].entries == map[] && trace[i].mu == None
  {
    RunKeepsInv(trace, i);
    var s := trace[i];
    if s.mu.Some? { MutexHolder(s); }
    forall k ensures k !in s.entries {
      assert k in s.entries ==> LiveOk(s, k) && Users(s.calls, s.entries[k]) == {};
    }
  }

  lemma AdvanceMovesOne(s: State, u: Caller)
    requires WellFormed(s) && Enabled(s, u)
    ensures Advance(s, u).calls.Keys == s.calls.Keys
    ensures forall t :: t in s.calls && t != u ==> Advance(s, u).calls[t] == s.calls[t]
    ensures PastHolding(s.calls[u].pc) ==> PastHolding(Advance(s, u).calls[u].pc)
  {
  }

  lemma PastHoldingKept(s: State, s': State, t: Caller)
    requires Next(s, s') && t in s.calls && PastHolding(s.calls[t].pc)
    ensures t in s'.calls && PastHolding(s'.calls[t].pc)
  {
    if u: Caller :| Steps(s, s', u) {
      AdvanceMovesOne(s, u);
    }
  }

  lemma RunIsWellFormed(trace: seq<State>, i: nat)
    requires Run(trace) && i < |trace|
    ensures WellFormed(trace[i]) && (i + 1 < |trace| ==> Next(trace[i], trace[i + 1]))
  {
    RunKeepsInv(trace, i);
  }

  /** Once the closure has run, calling it again changes nothing, ever after. */
  lemma {:induction false} RepeatedUnlockIsNoOp(trace: seq<State>, i: nat, j: nat, t: Caller)
    requires Run(trace) && i <= j < |trace| && t in trace[i].calls && PastHolding(trace[i].calls[t].pc)
    ensures WellFormed(trace[j]) && t in trace[j].calls && PastHolding(trace[j].calls[t].pc)
    ensures Unlock(trace[j], t) == trace[j]
  {
    RunIsWellFormed(trace, j);
    if i < j {
      RunIsWellFormed(trace, j - 1);
      RepeatedUnlockIsNoOp(trace, i, j - 1, t);
      PastHoldingKept(trace[j - 1], trace[j], t);
    }
  }

  /** Nobody is ever stuck: while any call is unfinished, some caller can take a
      step, counting a holder's eventual unlock as its step. */
  lemma SomebodyCanMove(trace: seq<State>, i: nat, t: Caller)
    requires Run(trace) && i < |trace| && t in trace[i].calls && trace[i].calls[t].pc != Done
    ensures WellFormed(trace[i]) && exists u :: Enabled(trace[i], u)
  {
    RunKeepsInv(trace, i);
    var s := trace[i];
    if !Enabled(s, t) {
      if s.mu.Some? {
        assert s.mu == Some(s.mu.value);
        assert Enabled(s, s.mu.value);
      } else {
        var e := s.calls[t].pc.e;
        assert OwnerOk(s, e, s.heap[e].owner.value);
        assert Enabled(s, s.heap[e].owner.value);
      }
    }
  }

  // --- one call, from its first statement to its last -----------------------------

  /** Statements a call has ahead of it. */
  function Ahead(pc: Pc): nat {
    match pc
    case WantMap => 10
    case InMap => 9
    case Found(_) => 8
    case Counted(_) => 7
    case Waiting(_) => 6
    case Holding(_) => 5
    case Released(_) => 4
    case InMapAgain(_) => 3
    case Dropped(_) => 2
    case Leaving => 1
    case Done => 0
  }

  /** Every step leads on, and nobody but the caller moves. */
  lemma StepsLeadOn(s: State, t: Caller)
    requires WellFormed(s) && Enabled(s, t)
    ensures t in Advance(s, t).calls && Ahead(Advance(s, t).calls[t].pc) == Ahead(s.calls[t].pc) - 1
    ensures forall u :: u in s.calls && u != t ==> u in Advance(s, t).calls && Advance(s, t).calls[u] == s.calls[u]
    ensures Advance(s, t).calls[t].key == s.calls[t].key
  {
  }

  /** The state with the caller at `pc` and this much recorded about its entry. */
  function With(s: State, t: Caller, mu: Option<Caller>, pc: Pc, e: EntryId, owner: Option<Caller>, refs: int): State
    requires t in s.calls
  {
    var key := s.calls[t].key;
    s.(mu := mu, heap := s.heap[e := Entry(key, owner, refs)], calls := s.calls[t := Call(key, pc)])
  }

  /** The map with an entry for the caller's key, made if it is missing. */
  function Made(s: State, t: Caller): State
    requires t in s.calls
  {
    var key := s.calls[t].key;
    if key in s.entries then s
    else s.(entries := s.entries[key := s.unused], heap := s.heap[s.unused := Entry(key, None, 0)], unused := s.unused + 1)
  }

  ghost predicate Leads(s: State, t: Caller, s': State) { WellFormed(s) && Enabled(s, t) && Advance(s, t) == s' }

  lemma WithIsWellFormed(s: State, t: Caller, e: EntryId, pc: Pc, mu: Option<Caller>, owner: Option<Caller>, refs: int)
    requires WellFormed(s) && t in s.calls && e in s.heap && EntryOf(pc) == Some(e)
    ensures WellFormed(With(s, t, mu, pc, e, owner, refs))
  {
  }

  /** The statements from counting the caller in to counting it out. */
  lemma MiddleStep(s: State, t: Caller, e: EntryId, pc: Pc, mu: Option<Caller>, owner: Option<Caller>, refs: int) returns (next: State)
    requires WellFormed(s) && t in s.calls && e in s.heap && EntryOf(pc) == Some(e) && !pc.Dropped?
    requires pc.Released? ==> mu == None
    requires pc.Waiting? ==> owner == None
    ensures Leads(With(s, t, mu, pc, e, owner, refs), t, next)
    ensures next ==
      match pc
      case Found(_) => With(s, t, mu, Counted(e), e, owner, refs + 1)
      case Counted(_) => With(s, t, None, Waiting(e), e, owner, refs)
      case Waiting(_) => With(s, t, mu, Holding(e), e, Some(t), refs)
      case Holding(_) => With(s, t, mu, Released(e), e, None, refs)
      case Released(_) => With(s, t, Some(t), InMapAgain(e), e, owner, refs)
      case _ => With(s, t, mu, Dropped(e), e, owner, refs - 1)
  {
    WithIsWellFormed(s, t, e, pc, mu, owner, refs);
    next := Advance(With(s, t, mu, pc, e, owner, refs), t);
  }

  /** Nobody is inside the map and nobody holds this caller's key. */
  ghost predicate Idle(s: State, t: Caller) {
    Inv(s) && t in s.calls && s.calls[t].pc == WantMap && s.mu == None &&
    (s.calls[t].key in s.entries ==> s.heap[s.entries[s.calls[t].key]].owner == None)
  }

  /** The caller's entry, as it was or newly made. */
  ghost predicate Ready(made: State, t: Caller, e: EntryId, refs: int) {
    WellFormed(made) && t in made.calls && e in made.heap && made.heap[e] == Entry(made.calls[t].key, None, refs)
  }

  lemma IdleIsReady(s: State, t: Caller) returns (e: EntryId, refs: int)
    requires Idle(s, t)
    ensures Ready(Made(s, t), t, e, refs) && Made(s, t).entries[s.calls[t].key] == e
    ensures refs == 0 <==> s.calls[t].key !in s.entries
    ensures s.unused !in s.heap
  {
    var key := s.calls[t].key;
    if key in s.entries { assert LiveOk(s, key); }
    e := Made(s, t).entries[key];
    refs := Made(s, t).heap[e].refs;
  }

  lemma EnterMap(s: State, t: Caller, e: EntryId, refs: int) returns (s1: State, s2: State)
    requires WellFormed(s) && t in s.calls && s.calls[t].pc == WantMap && s.mu == None
    requires Ready(Made(s, t), t, e, refs) && Made(s, t).entries[s.calls[t].key] == e
    ensures Leads(s, t, s1) && Leads(s1, t, s2)
    ensures s2 == With(Made(s, t), t, Some(t), Found(e), e, None, refs)
  {
    s1 := Advance(s, t);
    assert WellFormed(s1);
    s2 := Advance(s1, t);
    assert Made(s, t).heap == s2.heap;
  }

  ghost predicate Linked(trace: seq<State>, t: Caller) {
    forall i :: 0 <= i < |trace| - 1 ==> Leads(trace[i], t, trace[i + 1])
  }

  lemma LinkedOn(first: seq<State>, second: seq<State>, t: Caller) returns (trace: seq<State>)
    requires Linked(first, t) && Linked(second, t) && first != [] && second != [] && first[|first| - 1] == second[0]
    ensures trace == first + second[1..] && Linked(trace, t)
  {
    trace := first + second[1..];
    forall i | 0 <= i < |trace| - 1 ensures Leads(trace[i], t, trace[i + 1]) {
      var j := i - |first| + 1;
      if j >= 0 { assert trace[i] == second[j] && trace[i + 1] == second[j + 1]; }
    }
  }

  lemma Take(s: State, t: Caller, e: EntryId, refs: int) returns (trace: seq<State>)
    requires Ready(s, t, e, refs)
    ensures |trace| == 4 && Linked(trace, t)
    ensures trace[0] == With(s, t, Some(t), Found(e), e, None, refs)
    ensures trace[3] == With(s, t, None, Holding(e), e, Some(t), refs + 1)
  {
    var s1 := MiddleStep(s, t, e, Found(e), Some(t), None, refs);
    var s2 := MiddleStep(s, t, e, Counted(e), Some(t), None, refs + 1);
    var s3 := MiddleStep(s, t, e, Waiting(e), None, None, refs + 1);
    trace := [With(s, t, Some(t), Found(e), e, None, refs), s1, s2, s3];
  }

  /** Up to the decision to delete. */
  lemma Give(s: State, t: Caller, e: EntryId, refs: int) returns (trace: seq<State>)
    requires Ready(s, t, e, refs)
    ensures |trace| == 4 && Linked(trace, t)
    ensures trace[0] == With(s, t, None, Holding(e), e, Some(t), refs + 1)
    ensures trace[3] == With(s, t, Some(t), Dropped(e), e, None, refs)
  {
    var s4 := MiddleStep(s, t, e, Holding(e), None, Some(t), refs + 1);
    var s5 := MiddleStep(s, t, e, Released(e), None, None, refs + 1);
    var s6 := MiddleStep(s, t, e, InMapAgain(e), Some(t), None, refs + 1);
    trace := [With(s, t, None, Holding(e), e, Some(t), refs + 1), s4, s5, s6];
  }

  /** The call is over; an entry nobody uses is gone. */
  function Left(s: State, t: Caller, refs: int): State
    requires t in s.calls
  {
    var key := s.calls[t].key;
    s.(mu := None, calls := s.calls[t := Call(key, Done)], entries := if refs == 0 then s.entries - {key} else s.entries)
  }

  lemma LeaveMap(s: State, t: Caller, e: EntryId, refs: int) returns (s1: State, s2: State)
    requires Ready(s, t, e, refs)
    ensures Leads(With(s, t, Some(t), Dropped(e), e, None, refs), t, s1) && Leads(s1, t, s2)
    ensures s2 == Left(s, t, refs)
  {
    var s0 := With(s, t, Some(t), Dropped(e), e, None, refs);
    assert s0.heap == s.heap;
    s1 := Advance(s0, t);
    s2 := Advance(s1, t);
  }

  lemma LoneTrace(s: State, t: Caller, e: EntryId, refs: int) returns (trace: seq<State>)
    requires WellFormed(s) && t in s.calls && s.calls[t].pc == WantMap && s.mu == None
    requires Ready(Made(s, t), t, e, refs) && Made(s, t).entries[s.calls[t].key] == e
    ensures |trace| == 11 && trace[0] == s && Linked(trace, t)
    ensures trace[5] == With(Made(s, t), t, None, Holding(e), e, Some(t), refs + 1)
    ensures trace[10] == Left(Made(s, t), t, refs)
  {
    var s1, s2 := EnterMap(s, t, e, refs);
    var taken := Take(Made(s, t), t, e, refs);
    var given := Give(Made(s, t), t, e, refs);
    var s9, s10 := LeaveMap(Made(s, t), t, e, refs);
    trace := LinkedOn([s, s1, s2], taken, t);
    trace := LinkedOn(trace, given, t);
    trace := LinkedOn(trace, [given[3], s9, s10], t);
  }

  lemma MapIsRestored(s: State, t: Caller, refs: int)
    requires t in s.calls && s.unused !in s.heap && (refs == 0 <==> s.calls[t].key !in s.entries)
    ensures var end := Left(Made(s, t), t, refs);
      end.mu == None && end.entries == s.entries && end.calls == s.calls[t := Call(s.calls[t].key, Done)] &&
      forall e :: e in s.heap ==> e in end.heap && end.heap[e] == s.heap[e]
  {
  }

  /** A `Lock` and unlock that nothing comes between take exactly ten steps, the
      fifth of which gives the lock, and leave the map exactly as it was. */
  lemma LoneCall(s: State, t: Caller) returns (trace: seq<State>)
    requires Idle(s, t)
    ensures |trace| == 11 && trace[0] == s && Linked(trace, t)
    ensures t in trace[5].calls && trace[5].calls[t].pc.Holding?
    ensures trace[10].mu == None && trace[10].entries == s.entries
    ensures trace[10].calls == s.calls[t := Call(s.calls[t].key, Done)]
    ensures forall e :: e in s.heap ==> e in trace[10].heap && trace[10].heap[e] == s.heap[e]
  {
    var e, refs := IdleIsReady(s, t);
    trace := LoneTrace(s, t, e, refs);
    MapIsRestored(s, t, refs);
  }
}
