/** The guarded `route_localnet` protocol: a bridge may accept packets for
    127.0.0.0/8 only while a rule drops them on that bridge and the original
    setting is on disk, whatever fails and whenever the process dies. */
module HostportsGuard {
  import opened StringOrder
  import opened Wrappers
  import opened Cidr
  import opened Lists
  import opened Netfilter
  import opened HostportsRules

  datatype Backend = Iptables | Native

  /** The jumps `insertBaseRules` maintains wherever they stand in a built-in chain. */
  datatype Jump = RawJump | PreroutingJump | OutputJump | PostroutingJump

  const ALL_JUMPS: set<Jump> := {RawJump, PreroutingJump, OutputJump, PostroutingJump}

  /** The rules of the built-in FORWARD chain, where the jump has to come first. */
  datatype ForwardRule = OurJump | ForeignRule(text: string)

  /** Everything that survives the process: kernel settings, rules, state file. */
  datatype World = World(
    sysctl: map<string, bool>, saved: map<string, bool>,
    tables: IptTables, jumps: set<Jump>, forward: seq<ForwardRule>, nft: Option<NftTable>)

  // --- the invariant -------------------------------------------------------

  ghost predicate HasGuard(raw: seq<Rule>, bridge: string) {
    Uniform(raw, KeepMark, Drop) && exists i :: 0 <= i < |raw| && raw[i] == GuardRule(bridge)[0]
  }

  function RawChain(w: World, backend: Backend): seq<Rule> {
    match backend
    case Iptables => if RawJump in w.jumps then w.tables.raw else []
    case Native => if w.nft.Some? then w.nft.value.raw else []
  }

  /** A hooked chain that drops loopback traffic arriving on the bridge. */
  ghost predicate Guarded(w: World, backend: Backend, bridge: string) {
    HasGuard(RawChain(w, backend), bridge)
  }

  /** A setting that differs from its original value is recorded and guarded,
      and nothing wrong is ever recorded. */
  ghost predicate Safe(w: World, original: map<string, bool>, backend: Backend) {
    w.sysctl.Keys == original.Keys &&
    (forall b :: b in w.saved && b in original ==> w.saved[b] == original[b]) &&
    (forall b :: b in w.sysctl && w.sysctl[b] != original[b] ==> b in w.saved && Guarded(w, backend, b))
  }

  /** 127/8 from its first address to its last. */
  lemma LoopbackRange(a: Address)
    ensures Contains(LOOPBACK, a) <==> 0x7F00_0000 <= a <= 0x7FFF_FFFF
  {
    assert Block(30) == 4 && Block(28) == 16 && Block(26) == 64 && Block(24) == 256;
    assert Block(22) == 0x400 && Block(20) == 0x1000 && Block(18) == 0x4000 && Block(16) == 0x1_0000;
    assert Block(14) == 0x4_0000 && Block(12) == 0x10_0000 && Block(10) == 0x40_0000 && Block(8) == 0x100_0000;
  }

  /** While a changed setting is live, no packet for 127/8 gets past the raw
      hook on that bridge. */
  lemma GuardDropsLoopback(w: World, original: map<string, bool>, backend: Backend, bridge: string, p: Packet, fib: Fib)
    requires Safe(w, original, backend)
    requires bridge in w.sysctl && w.sysctl[bridge] != original[bridge]
    requires p.inIf == bridge && 0x7F00_0000 <= p.dst <= 0x7FFF_FFFF
    ensures Run(RawChain(w, backend), p, fib).action == Drop
  {
    var raw := RawChain(w, backend);
    var i :| 0 <= i < |raw| && raw[i] == GuardRule(bridge)[0];
    LoopbackRange(p.dst);
    AllTwo(InIs(bridge), DstIn(LOOPBACK), p, fib);
    RunUniform(raw, KeepMark, Drop, p, fib);
  }

  lemma GuardAdmits(bridge: string, p: Packet, fib: Fib)
    ensures Admits(GuardRule(bridge), p, fib) <==> p.inIf == bridge && 0x7F00_0000 <= p.dst <= 0x7FFF_FFFF
  {
    LoopbackRange(p.dst);
    AllTwo(InIs(bridge), DstIn(LOOPBACK), p, fib);
    assert GuardRule(bridge)[0].matches == [InIs(bridge), DstIn(LOOPBACK)];
  }

  /** The raw chain drops exactly loopback destinations arriving on an enabled bridge. */
  lemma RawDropsExactly(rules: RuleSet, p: Packet, fib: Fib)
    ensures IptCompiled(rules).raw == NftCompiled(rules).raw
    ensures Run(IptCompiled(rules).raw, p, fib) ==
            Outcome(if p.inIf in rules.routeLocalnet && rules.routeLocalnet[p.inIf] && 0x7F00_0000 <= p.dst <= 0x7FFF_FFFF
                    then Drop else Continue, p.mark)
  {
    var bridges := EnabledBridges(rules.routeLocalnet);
    UniformFlatMap(bridges, GuardRule, KeepMark, Drop);
    RunUniform(FlatMap(bridges, GuardRule), KeepMark, Drop, p, fib);
    AdmitsFlatMap(bridges, GuardRule, p, fib);
    forall i | 0 <= i < |bridges|
      ensures Admits(GuardRule(bridges[i]), p, fib) <==> p.inIf == bridges[i] && 0x7F00_0000 <= p.dst <= 0x7FFF_FFFF
    {
      GuardAdmits(bridges[i], p, fib);
    }
    EnabledAreGuarded(rules.routeLocalnet, p.inIf);
  }

  lemma {:induction false} CompiledGuards(bridges: seq<string>)
    ensures Uniform(FlatMap(bridges, GuardRule), KeepMark, Drop)
    ensures forall b :: b in bridges ==> HasGuard(FlatMap(bridges, GuardRule), b)
  {
    if bridges != [] {
      var init, last := bridges[..|bridges| - 1], bridges[|bridges| - 1];
      CompiledGuards(init);
      var raw := FlatMap(bridges, GuardRule);
      assert raw[|raw| - 1] == GuardRule(last)[0];
      forall b | b in bridges ensures HasGuard(raw, b) {
        if b != last {
          assert b in init;
          var i :| 0 <= i < |FlatMap(init, GuardRule)| && FlatMap(init, GuardRule)[i] == GuardRule(b)[0];
          assert raw[i] == GuardRule(b)[0];
        }
      }
    }
  }

  lemma EnabledAreGuarded(flags: map<string, bool>, b: string)
    ensures b in EnabledBridges(flags) <==> Flag(flags, b)
    ensures Flag(flags, b) ==> HasGuard(FlatMap(EnabledBridges(flags), GuardRule), b)
  {
    EveryKeyListed((set x | x in flags && flags[x]), b);
    CompiledGuards(EnabledBridges(flags));
  }

  // --- one step at a time ---------------------------------------------------

  ghost predicate Restored(w: World, original: map<string, bool>, flags: map<string, bool>) {
    forall b :: b in w.sysctl && b in original && !Flag(flags, b) ==> w.sysctl[b] == original[b]
  }

  ghost predicate AllGuarded(w: World, backend: Backend, flags: map<string, bool>) {
    forall b :: Flag(flags, b) ==> Guarded(w, backend, b)
  }

  /** Replacing the guards is safe once every bridge losing its guard is back
      to its original value. */
  lemma CommitKeepsSafe(w: World, next: World, original: map<string, bool>, backend: Backend, flags: map<string, bool>)
    requires Safe(w, original, backend) && Restored(w, original, flags)
    requires next.sysctl == w.sysctl && next.saved == w.saved
    requires RawChain(next, backend) == RawChain(w, backend) || AllGuarded(next, backend, flags)
    ensures Safe(next, original, backend)
  {
  }

  /** The new ownership record may replace the old one once every bridge leaving
      it is restored and every bridge in it is guarded. */
  lemma SaveKeepsSafe(w: World, next: map<string, bool>, original: map<string, bool>, backend: Backend, flags: map<string, bool>)
    requires Safe(w, original, backend) && Restored(w, original, flags) && AllGuarded(w, backend, flags)
    requires forall b :: b in next <==> Flag(flags, b)
    requires forall b :: b in next ==>
      (b in w.saved && next[b] == w.saved[b]) || (b !in w.saved && b in w.sysctl && next[b] == w.sysctl[b])
    ensures Safe(w.(saved := next), original, backend)
  {
    forall b | b in next && b in original ensures next[b] == original[b] {
      if b !in w.saved { assert w.sysctl[b] == original[b]; }
    }
  }

  lemma EnableKeepsSafe(w: World, b: string, original: map<string, bool>, backend: Backend)
    requires Safe(w, original, backend) && b in w.saved && b in w.sysctl && Guarded(w, backend, b)
    ensures Safe(w.(sysctl := w.sysctl[b := true]), original, backend)
  {
    var next := w.(sysctl := w.sysctl[b := true]);
    assert next.sysctl.Keys == w.sysctl.Keys;
    forall x | x in next.sysctl && next.sysctl[x] != original[x] ensures x in next.saved && Guarded(next, backend, x) {
      if x != b { assert w.sysctl[x] != original[x]; }
    }
  }

  lemma RestoreKeepsSafe(w: World, b: string, original: map<string, bool>, backend: Backend)
    requires Safe(w, original, backend) && b in w.saved && b in w.sysctl
    ensures Safe(w.(sysctl := w.sysctl[b := w.saved[b]]), original, backend)
  {
    var next := w.(sysctl := w.sysctl[b := w.saved[b]]);
    assert next.sysctl.Keys == w.sysctl.Keys;
    forall x | x in next.sysctl && next.sysctl[x] != original[x] ensures x in next.saved && Guarded(next, backend, x) {
      if x != b { assert w.sysctl[x] != original[x]; }
    }
  }

  /** The first bridges of the list have their original value back. */
  ghost predicate RestoredSoFar(w: World, original: map<string, bool>, bridges: seq<string>, n: nat) {
    w.sysctl.Keys == original.Keys &&
    forall j :: 0 <= j < n && j < |bridges| && bridges[j] in original ==> w.sysctl[bridges[j]] == original[bridges[j]]
  }

  ghost predicate EnabledSoFar(w: World, bridges: seq<string>, n: nat) {
    forall j :: 0 <= j < n && j < |bridges| ==> bridges[j] in w.sysctl && w.sysctl[bridges[j]]
  }

  /** Bridges that are not to be enabled keep their setting. */
  ghost predicate OthersUntouched(now: World, before: World, flags: map<string, bool>) {
    now.sysctl.Keys == before.sysctl.Keys &&
    forall b :: b in now.sysctl && !Flag(flags, b) ==> now.sysctl[b] == before.sysctl[b]
  }

  lemma RemovedAreRestored(w: World, original: map<string, bool>, backend: Backend, flags: map<string, bool>, removed: set<string>)
    requires Safe(w, original, backend)
    requires removed == set b | b in w.saved && !Flag(flags, b)
    requires RestoredSoFar(w, original, SortedKeys(removed), |SortedKeys(removed)|)
    ensures Restored(w, original, flags)
  {
    forall b | b in w.sysctl && b in original && !Flag(flags, b) ensures w.sysctl[b] == original[b] {
      if b in w.saved {
        EveryKeyListed(removed, b);
        var i :| 0 <= i < |SortedKeys(removed)| && SortedKeys(removed)[i] == b;
      }
    }
  }

  // --- the system calls, each of which may fail -----------------------------

  datatype Batch = Batch(delete: bool, table: NftTable)

  function Committed(before: IptTables, after: IptTables, tables: nat): IptTables {
    if tables == 0 then before
    else if tables == 1 then before.(raw := after.raw)
    else if tables == 2 then after.(forward := before.forward)
    else after
  }

  /** Without a leading `delete`, nft appends to a table that already exists. */
  function Appended(a: NftTable, b: NftTable): NftTable {
    NftTable(a.raw + b.raw, a.prerouting + b.prerouting, a.output + b.output,
             a.postrouting + b.postrouting, a.forward + b.forward)
  }

  class Kernel {
    var world: World
    /** Every state the world has been in, oldest first. */
    var history: seq<World>
    /** Operations that failed although nothing in the world stood against them. */
    ghost var faults: nat

    constructor (start: World)
      ensures world == start && history == [start] && faults == 0
    {
      world, history, faults := start, [start], 0;
    }

    /** A missing bridge can only be turned off. */
    method SetRouteLocalnet(bridge: string, value: bool) returns (ok: bool)
      modifies this
      ensures faults >= old(faults)
      ensures history == old(history) + [world]
      ensures world == if ok && bridge in old(world).sysctl
                       then old(world).(sysctl := old(world).sysctl[bridge := value]) else old(world)
      ensures ok ==> bridge in old(world).sysctl || !value
      ensures faults == old(faults) ==> ok == (bridge in old(world).sysctl || !value)
    {
      ok := *;
      if bridge !in world.sysctl {
        ok := !value;
      } else if ok {
        world := world.(sysctl := world.sysctl[bridge := value]);
      } else {
        faults := faults + 1;
      }
      history := history + [world];
    }

    method GetRouteLocalnet(bridge: string) returns (ok: bool, value: bool)
      modifies this`faults
      ensures faults >= old(faults)
      ensures ok ==> bridge in world.sysctl && value == world.sysctl[bridge]
      ensures faults == old(faults) ==> ok == (bridge in world.sysctl)
    {
      ok := *;
      if !ok { faults := faults + 1; }
      ok := ok && bridge in world.sysctl;
      value := if ok then world.sysctl[bridge] else false;
    }

    /** Temporary file, sync and rename: the file is the old one or the new one. */
    method SaveState(next: map<string, bool>) returns (ok: bool)
      modifies this
      ensures faults >= old(faults) && (faults == old(faults) ==> ok)
      ensures history == old(history) + [world]
      ensures world == if ok then old(world).(saved := next) else old(world)
    {
      ok := *;
      if ok {
        world := world.(saved := next);
      } else {
        faults := faults + 1;
      }
      history := history + [world];
    }

    /** `iptables-restore --test` and `nft -c`: the generated input is well formed. */
    method Precheck() returns (ok: bool)
      modifies this`faults
      ensures faults >= old(faults) && (faults == old(faults) ==> ok)
    {
      ok := *;
      if !ok { faults := faults + 1; }
    }

    /** `iptables-restore` commits raw, nat and filter one after the other. */
    method RestoreTables(t: IptTables) returns (ok: bool)
      modifies this
      ensures faults >= old(faults) && (faults == old(faults) ==> ok)
      ensures history == old(history) + [world]
      ensures exists n :: 0 <= n <= 3 && world == old(world).(tables := Committed(old(world).tables, t, n))
      ensures ok ==> world == old(world).(tables := t)
    {
      var committed :| 0 <= committed <= 3;
      ok := *;
      ok := ok && committed == 3;
      if !ok { faults := faults + 1; }
      world := world.(tables := Committed(world.tables, t, committed));
      history := history + [world];
    }

    method JumpPresent(jump: Jump) returns (present: bool)
      ensures present ==> jump in world.jumps
    {
      present := *;
      present := present && jump in world.jumps;
    }

    method InsertJump(jump: Jump) returns (ok: bool)
      modifies this
      ensures faults >= old(faults) && (faults == old(faults) ==> ok)
      ensures history == old(history) + [world]
      ensures world == if ok then old(world).(jumps := old(world).jumps + {jump}) else old(world)
    {
      ok := *;
      if ok {
        world := world.(jumps := world.jumps + {jump});
      } else {
        faults := faults + 1;
      }
      history := history + [world];
    }

    method ListForward() returns (ok: bool, rules: seq<ForwardRule>)
      ensures ok ==> rules == world.forward
    {
      ok := *;
      rules := if ok then world.forward else [];
    }

    /** `-I FORWARD 1`: older copies stay where they are. */
    method InsertForwardJump() returns (ok: bool)
      modifies this
      ensures faults >= old(faults) && (faults == old(faults) ==> ok)
      ensures history == old(history) + [world]
      ensures world == if ok then old(world).(forward := [OurJump] + old(world).forward) else old(world)
    {
      ok := *;
      if ok {
        world := world.(forward := [OurJump] + world.forward);
      } else {
        faults := faults + 1;
      }
      history := history + [world];
    }

    method ListNftTables() returns (ok: bool, found: bool)
      modifies this`faults
      ensures faults >= old(faults) && (faults == old(faults) ==> ok)
      ensures ok ==> found == world.nft.Some?
    {
      ok := *;
      if !ok { faults := faults + 1; }
      found := world.nft.Some?;
    }

    /** `nft -f` is one transaction; deleting an absent table rejects it. */
    method CommitNft(batch: Batch) returns (ok: bool)
      modifies this
      ensures faults >= old(faults)
      ensures faults == old(faults) ==> ok == (batch.delete ==> old(world).nft.Some?)
      ensures history == old(history) + [world]
      ensures !ok ==> world == old(world)
      ensures ok && batch.delete ==> old(world).nft.Some?
      ensures ok ==> world == old(world).(nft := Some(
        if batch.delete || old(world).nft.None? then batch.table else Appended(old(world).nft.value, batch.table)))
    {
      ok := *;
      if !ok { faults := faults + 1; }
      ok := ok && (batch.delete ==> world.nft.Some?);
      if ok {
        world := world.(nft := Some(
          if batch.delete || world.nft.None? then batch.table else Appended(world.nft.value, batch.table)));
      }
      history := history + [world];
    }

    /** The process died when the world was in its `i`-th recorded state. */
    method CrashAt(i: nat)
      requires i < |history|
      modifies this
      ensures world == old(history)[i] && history == old(history) + [world] && faults == old(faults)
    {
      world := history[i];
      history := history + [world];
    }
  }

  // --- the watcher -----------------------------------------------------------

  /** Every state recorded since `before` was safe, so a crash in any of them is. */
  ghost predicate Recorded(before: seq<World>, now: seq<World>, original: map<string, bool>, backend: Backend) {
    before <= now && forall i :: |before| <= i < |now| ==> Safe(now[i], original, backend)
  }

  lemma RecordedOn(before: seq<World>, past: seq<World>, now: seq<World>, original: map<string, bool>, backend: Backend)
    requires Recorded(before, past, original, backend) && Recorded(past, now, original, backend)
    ensures Recorded(before, now, original, backend)
  {
  }

  predicate ForwardJumpIsFirst(w: World) { w.forward != [] && w.forward[0] == OurJump }

  /** Every chain of the watcher is entered, FORWARD before any other rule. */
  predicate Hooked(w: World) { ALL_JUMPS <= w.jumps && ForwardJumpIsFirst(w) }

  /** Jumps are only ever added, and nothing else is touched. */
  predicate OnlyHooksAdded(now: World, before: World) {
    now == before.(jumps := now.jumps, forward := now.forward) && before.jumps <= now.jumps &&
    (now.forward == before.forward || now.forward == [OurJump] + before.forward)
  }

  /** Every bridge to be restored still exists, or was off to begin with. */
  ghost predicate Restorable(w: World, flags: map<string, bool>) {
    forall b :: b in w.saved && w.saved[b] && !Flag(flags, b) ==> b in w.sysctl
  }

  ghost predicate Enableable(w: World, flags: map<string, bool>) {
    forall b :: Flag(flags, b) ==> b in w.sysctl
  }

  /** Nothing stands against an apply exactly when every bridge that is to be on,
      or was on when it was recorded, exists. */
  lemma ReadyExactly(w: World, flags: map<string, bool>)
    ensures Restorable(w, flags) && Enableable(w, flags) <==>
      forall b :: (b in flags && flags[b]) || (b in w.saved && w.saved[b]) ==> b in w.sysctl
  {
  }

  /** What a successful apply leaves: exactly the enabled bridges on and owned,
      every other bridge as it was found, and the compiled rules installed. */
  ghost predicate Settled(w: World, rules: RuleSet, original: map<string, bool>, backend: Backend) {
    (forall b :: Flag(rules.routeLocalnet, b) ==> b in w.sysctl && w.sysctl[b]) &&
    (forall b :: b in w.saved <==> Flag(rules.routeLocalnet, b)) &&
    Restored(w, original, rules.routeLocalnet) &&
    (backend == Iptables ==> w.tables == IptCompiled(rules) && Hooked(w)) &&
    (backend == Native ==> w.nft == Some(NftCompiled(rules)))
  }

  class Watcher {
    const kernel: Kernel
    const backend: Backend
    var applied: RuleSet
    var routeLocalnetOriginal: map<string, bool>
    ghost const original: map<string, bool>

    ghost predicate Valid()
      reads this, kernel
    {
      Safe(kernel.world, original, backend) && routeLocalnetOriginal == kernel.world.saved
    }

    /** `Watch`: ownership recorded by an earlier process is loaded before anything else. */
    constructor (kernel: Kernel, backend: Backend, ghost original: map<string, bool>)
      requires Safe(kernel.world, original, backend)
      ensures this.kernel == kernel && this.backend == backend && this.original == original
      ensures Valid()
      ensures forall b :: Flag(applied.routeLocalnet, b) <==> b in kernel.world.saved
    {
      this.kernel, this.backend, this.original := kernel, backend, original;
      routeLocalnetOriginal := kernel.world.saved;
      applied := RuleSet(map[], map[], map[], map[], map[], map b | b in kernel.world.saved :: true);
    }

    method RestoreOne(bridges: seq<string>, i: nat) returns (ok: bool)
      requires Valid() && i < |bridges| && bridges[i] in routeLocalnetOriginal
      requires RestoredSoFar(kernel.world, original, bridges, i)
      modifies kernel
      ensures Valid()
      ensures Recorded(old(kernel.history), kernel.history, original, backend)
      ensures kernel.world == old(kernel.world).(sysctl := kernel.world.sysctl)
      ensures ok ==> RestoredSoFar(kernel.world, original, bridges, i + 1)
      ensures kernel.faults >= old(kernel.faults)
      ensures ok ==> bridges[i] in kernel.world.sysctl || !routeLocalnetOriginal[bridges[i]]
      ensures kernel.faults == old(kernel.faults) ==> ok == (bridges[i] in kernel.world.sysctl || !routeLocalnetOriginal[bridges[i]])
    {
      var bridge := bridges[i];
      if bridge in kernel.world.sysctl {
        RestoreKeepsSafe(kernel.world, bridge, original, backend);
      }
      ok := kernel.SetRouteLocalnet(bridge, routeLocalnetOriginal[bridge]);
    }

    /** Runs before any guard is removed. */
    method RestoreRemoved(rules: RuleSet) returns (ok: bool)
      requires Valid()
      modifies kernel
      ensures Valid()
      ensures Recorded(old(kernel.history), kernel.history, original, backend)
      ensures kernel.world == old(kernel.world).(sysctl := kernel.world.sysctl)
      ensures ok ==> Restored(kernel.world, original, rules.routeLocalnet)
      ensures kernel.faults >= old(kernel.faults)
      ensures kernel.faults == old(kernel.faults) ==> ok == Restorable(old(kernel.world), rules.routeLocalnet)
    {
      ghost var removed := set b | b in routeLocalnetOriginal && !Flag(rules.routeLocalnet, b);
      var bridges := CollectSorted(set b | b in routeLocalnetOriginal && !Flag(rules.routeLocalnet, b));
      OnlyKeysListed(removed);
      for i := 0 to |bridges|
        invariant Valid()
        invariant Recorded(old(kernel.history), kernel.history, original, backend)
        invariant kernel.world == old(kernel.world).(sysctl := kernel.world.sysctl)
        invariant RestoredSoFar(kernel.world, original, bridges, i)
        invariant kernel.faults >= old(kernel.faults)
        invariant forall j :: 0 <= j < i ==> bridges[j] in kernel.world.sysctl || !routeLocalnetOriginal[bridges[j]]
      {
        ghost var past := kernel.history;
        var done := RestoreOne(bridges, i);
        RecordedOn(old(kernel.history), past, kernel.history, original, backend);
        if !done { return false; }
      }
      RemovedAreRestored(kernel.world, original, backend, rules.routeLocalnet, removed);
      forall b | b in kernel.world.saved && kernel.world.saved[b] && !Flag(rules.routeLocalnet, b) ensures b in kernel.world.sysctl {
        EveryKeyListed(removed, b);
      }
      ok := true;
    }

    method EnsureJump(jump: Jump) returns (ok: bool)
      requires Valid() && backend == Iptables
      modifies kernel
      ensures Valid()
      ensures Recorded(old(kernel.history), kernel.history, original, backend)
      ensures OnlyHooksAdded(kernel.world, old(kernel.world)) && kernel.world.forward == old(kernel.world).forward
      ensures ok ==> jump in kernel.world.jumps
      ensures kernel.faults >= old(kernel.faults) && (kernel.faults == old(kernel.faults) ==> ok)
    {
      ok := kernel.JumpPresent(jump);
      if !ok { ok := kernel.InsertJump(jump); }
    }

    /** A failed insertion leaves the working jump where it was. */
    method EnsureForwardJumpFirst() returns (ok: bool)
      requires Valid() && backend == Iptables
      modifies kernel
      ensures Valid()
      ensures Recorded(old(kernel.history), kernel.history, original, backend)
      ensures OnlyHooksAdded(kernel.world, old(kernel.world)) && kernel.world.jumps == old(kernel.world).jumps
      ensures ok ==> ForwardJumpIsFirst(kernel.world)
      ensures kernel.faults >= old(kernel.faults) && (kernel.faults == old(kernel.faults) ==> ok)
    {
      var listed, rules := kernel.ListForward();
      if listed && rules != [] && rules[0] == OurJump { return true; }
      ok := kernel.InsertForwardJump();
    }

    method InsertBaseRules() returns (ok: bool)
      requires Valid() && backend == Iptables
      modifies kernel
      ensures Valid()
      ensures Recorded(old(kernel.history), kernel.history, original, backend)
      ensures OnlyHooksAdded(kernel.world, old(kernel.world))
      ensures ok ==> Hooked(kernel.world)
      ensures kernel.faults >= old(kernel.faults) && (kernel.faults == old(kernel.faults) ==> ok)
    {
      var raw := EnsureJump(RawJump);
      var prerouting := EnsureJump(PreroutingJump);
      var forward := EnsureForwardJumpFirst();
      var output := EnsureJump(OutputJump);
      var postrouting := EnsureJump(PostroutingJump);
      ok := raw && prerouting && forward && output && postrouting;
    }

    method ReadOriginals(rules: RuleSet) returns (ok: bool, next: map<string, bool>)
      requires Valid()
      modifies kernel`faults
      ensures Valid() && kernel.faults >= old(kernel.faults)
      ensures kernel.faults == old(kernel.faults) && Enableable(kernel.world, rules.routeLocalnet) ==> ok
      ensures ok ==> forall b :: b in next <==> Flag(rules.routeLocalnet, b)
      ensures ok ==> forall b :: b in next ==>
        if b in kernel.world.saved then next[b] == kernel.world.saved[b]
        else b in kernel.world.sysctl && next[b] == kernel.world.sysctl[b]
    {
      next := map[];
      var bridges := SortedEnabledBridges(rules.routeLocalnet);
      forall b ensures b in bridges <==> Flag(rules.routeLocalnet, b) { EnabledAreGuarded(rules.routeLocalnet, b); }
      for i := 0 to |bridges|
        invariant Valid() && kernel.faults >= old(kernel.faults)
        invariant forall b :: b in next <==> b in bridges[..i]
        invariant forall b :: b in next ==>
          if b in kernel.world.saved then next[b] == kernel.world.saved[b]
          else b in kernel.world.sysctl && next[b] == kernel.world.sysctl[b]
      {
        var bridge := bridges[i];
        var before: bool;
        if bridge in routeLocalnetOriginal {
          before := routeLocalnetOriginal[bridge];
        } else {
          var read, value := kernel.GetRouteLocalnet(bridge);
          if !read { return false, map[]; }
          before := value;
        }
        assert bridges[..i + 1] == bridges[..i] + [bridge];
        next := next[bridge := before];
      }
      assert bridges[..|bridges|] == bridges;
      ok := true;
    }

    method EnableOne(bridges: seq<string>, i: nat, flags: map<string, bool>) returns (ok: bool)
      requires Valid() && i < |bridges| && Flag(flags, bridges[i])
      requires bridges[i] in kernel.world.saved && Guarded(kernel.world, backend, bridges[i])
      requires EnabledSoFar(kernel.world, bridges, i)
      modifies kernel
      ensures Valid()
      ensures Recorded(old(kernel.history), kernel.history, original, backend)
      ensures kernel.world == old(kernel.world).(sysctl := kernel.world.sysctl)
      ensures OthersUntouched(kernel.world, old(kernel.world), flags)
      ensures ok ==> EnabledSoFar(kernel.world, bridges, i + 1)
      ensures kernel.faults >= old(kernel.faults)
      ensures kernel.faults == old(kernel.faults) && bridges[i] in kernel.world.sysctl ==> ok
    {
      var bridge := bridges[i];
      if bridge in kernel.world.sysctl {
        EnableKeepsSafe(kernel.world, bridge, original, backend);
      }
      ok := kernel.SetRouteLocalnet(bridge, true);
    }

    method EnableAll(rules: RuleSet) returns (ok: bool)
      requires Valid() && AllGuarded(kernel.world, backend, rules.routeLocalnet)
      requires forall b :: b in kernel.world.saved <==> Flag(rules.routeLocalnet, b)
      modifies kernel
      ensures Valid()
      ensures Recorded(old(kernel.history), kernel.history, original, backend)
      ensures kernel.world == old(kernel.world).(sysctl := kernel.world.sysctl)
      ensures OthersUntouched(kernel.world, old(kernel.world), rules.routeLocalnet)
      ensures ok ==> forall b :: Flag(rules.routeLocalnet, b) ==> b in kernel.world.sysctl && kernel.world.sysctl[b]
      ensures kernel.faults >= old(kernel.faults)
      ensures kernel.faults == old(kernel.faults) && Enableable(old(kernel.world), rules.routeLocalnet) ==> ok
    {
      var bridges := SortedEnabledBridges(rules.routeLocalnet);
      forall b ensures b in bridges <==> Flag(rules.routeLocalnet, b) { EnabledAreGuarded(rules.routeLocalnet, b); }
      for i := 0 to |bridges|
        invariant Valid()
        invariant Recorded(old(kernel.history), kernel.history, original, backend)
        invariant kernel.world == old(kernel.world).(sysctl := kernel.world.sysctl)
        invariant OthersUntouched(kernel.world, old(kernel.world), rules.routeLocalnet)
        invariant EnabledSoFar(kernel.world, bridges, i)
        invariant kernel.faults >= old(kernel.faults)
      {
        assert bridges[i] in bridges;
        assert Guarded(old(kernel.world), backend, bridges[i]);
        ghost var past := kernel.history;
        var done := EnableOne(bridges, i, rules.routeLocalnet);
        RecordedOn(old(kernel.history), past, kernel.history, original, backend);
        if !done { return false; }
      }
      ok := true;
    }

    /** Called only after the bridge-scoped guard is live. */
    method Activate(rules: RuleSet) returns (ok: bool)
      requires Valid()
      requires Restored(kernel.world, original, rules.routeLocalnet) && AllGuarded(kernel.world, backend, rules.routeLocalnet)
      modifies this`routeLocalnetOriginal, kernel
      ensures Valid()
      ensures Recorded(old(kernel.history), kernel.history, original, backend)
      ensures kernel.world == old(kernel.world).(sysctl := kernel.world.sysctl, saved := kernel.world.saved)
      ensures ok ==> Restored(kernel.world, original, rules.routeLocalnet)
      ensures ok ==> forall b :: Flag(rules.routeLocalnet, b) ==> b in kernel.world.sysctl && kernel.world.sysctl[b]
      ensures ok ==> forall b :: b in kernel.world.saved <==> Flag(rules.routeLocalnet, b)
      ensures kernel.faults >= old(kernel.faults)
      ensures kernel.faults == old(kernel.faults) ==> ok == Enableable(old(kernel.world), rules.routeLocalnet)
    {
      var read, next := ReadOriginals(rules);
      if !read { return false; }
      SaveKeepsSafe(kernel.world, next, original, backend, rules.routeLocalnet);
      var saved := kernel.SaveState(next);
      if !saved { return false; }
      routeLocalnetOriginal := next;
      ok := EnableAll(rules);
    }

    method ApplyNative(rules: RuleSet) returns (ok: bool)
      requires Valid() && backend == Native
      modifies this, kernel
      ensures Valid()
      ensures Recorded(old(kernel.history), kernel.history, original, backend)
      ensures ok ==> Settled(kernel.world, rules, original, backend) && applied == rules
      ensures !ok ==> applied == old(applied)
      ensures kernel.faults >= old(kernel.faults)
      ensures kernel.faults == old(kernel.faults) ==>
        ok == (Restorable(old(kernel.world), rules.routeLocalnet) && Enableable(old(kernel.world), rules.routeLocalnet))
    {
      var listed, found := kernel.ListNftTables();
      if !listed { return false; }
      var table := CompileNft(rules);
      var batch := Batch(found, table);
      var prechecked := kernel.Precheck();
      if !prechecked { return false; }
      var restored := RestoreRemoved(rules);
      if !restored { return false; }
      ghost var before := kernel.world;
      var committed := kernel.CommitNft(batch);
      CompiledAreGuarded(rules, kernel.world, backend);
      CommitKeepsSafe(before, kernel.world, original, backend, rules.routeLocalnet);
      if !committed { return false; }
      var activated := Activate(rules);
      if !activated { return false; }
      applied := rules;
      ok := true;
    }

    method ApplyTables(rules: RuleSet) returns (ok: bool)
      requires Valid() && backend == Iptables
      modifies this, kernel
      ensures Valid()
      ensures Recorded(old(kernel.history), kernel.history, original, backend)
      ensures ok ==> Settled(kernel.world, rules, original, backend) && applied == rules
      ensures !ok ==> applied == old(applied)
      ensures kernel.faults >= old(kernel.faults)
      ensures kernel.faults == old(kernel.faults) ==>
        ok == (Restorable(old(kernel.world), rules.routeLocalnet) && Enableable(old(kernel.world), rules.routeLocalnet))
    {
      var tables := CompileIptables(rules);
      var prechecked := kernel.Precheck();
      if !prechecked { return false; }
      var restored := RestoreRemoved(rules);
      if !restored { return false; }
      ghost var before := kernel.world;
      var committed := kernel.RestoreTables(tables);
      CommitTablesKeepsSafe(before, kernel.world, rules, original);
      if !committed { return false; }
      var hooked := InsertBaseRules();
      if !hooked { return false; }
      CompiledAreGuarded(rules, kernel.world, backend);
      var activated := Activate(rules);
      if !activated { return false; }
      applied := rules;
      ok := true;
    }

    /** `apply`: an invalid rule set touches nothing; otherwise every state on the
        way is safe, and success settles the world. */
    method Apply(rules: RuleSet) returns (ok: bool)
      requires Valid()
      modifies this, kernel
      ensures Valid()
      ensures Recorded(old(kernel.history), kernel.history, original, backend)
      ensures !ValidRuleSet(rules) ==> !ok && kernel.world == old(kernel.world) && kernel.history == old(kernel.history)
      ensures ok ==> Settled(kernel.world, rules, original, backend) && applied == rules
      ensures !ok ==> applied == old(applied)
      ensures kernel.faults >= old(kernel.faults)
      ensures kernel.faults == old(kernel.faults) ==>
        ok == (ValidRuleSet(rules) && Restorable(old(kernel.world), rules.routeLocalnet) &&
               Enableable(old(kernel.world), rules.routeLocalnet))
    {
      if !ValidRuleSet(rules) { return false; }
      match backend {
        case Native => ok := ApplyNative(rules);
        case Iptables => ok := ApplyTables(rules);
      }
    }
  }

  lemma CompiledAreGuarded(rules: RuleSet, w: World, backend: Backend)
    ensures backend == Iptables && RawJump in w.jumps && w.tables.raw == IptCompiled(rules).raw ==>
      AllGuarded(w, backend, rules.routeLocalnet)
    ensures backend == Native && w.nft == Some(NftCompiled(rules)) ==> AllGuarded(w, backend, rules.routeLocalnet)
  {
    forall b | Flag(rules.routeLocalnet, b)
      ensures HasGuard(FlatMap(EnabledBridges(rules.routeLocalnet), GuardRule), b)
    {
      EnabledAreGuarded(rules.routeLocalnet, b);
    }
  }

  /** However many tables `iptables-restore` got to, the result is safe. */
  lemma CommitTablesKeepsSafe(w: World, next: World, rules: RuleSet, original: map<string, bool>)
    requires Safe(w, original, Iptables) && Restored(w, original, rules.routeLocalnet)
    requires exists n :: 0 <= n <= 3 && next == w.(tables := Committed(w.tables, IptCompiled(rules), n))
    ensures Safe(next, original, Iptables)
  {
    CompiledAreGuarded(rules, next, Iptables);
    if RawJump in next.jumps {
      CommitKeepsSafe(w, next, original, Iptables, rules.routeLocalnet);
    } else {
      assert RawChain(next, Iptables) == RawChain(w, Iptables) == [];
      CommitKeepsSafe(w, next, original, Iptables, rules.routeLocalnet);
    }
  }

  // --- whole lifetimes -------------------------------------------------------

  datatype Event =
    | ApplyRules(rules: RuleSet)
    | Repair
    /** The process dies somewhere inside an apply and a new one starts. */
    | CrashDuring(rules: RuleSet)

  /** Any sequence of applies, hook repairs and crashes, with any step of any of
      them failing: no state the machine ever passes through is unsafe. */
  method Lifetime(start: World, backend: Backend, events: seq<Event>, ghost original: map<string, bool>) returns (kernel: Kernel)
    requires Safe(start, original, backend)
    ensures forall i :: 0 <= i < |kernel.history| ==> Safe(kernel.history[i], original, backend)
  {
    kernel := new Kernel(start);
    var w := new Watcher(kernel, backend, original);
    for n := 0 to |events|
      invariant w.kernel == kernel && w.backend == backend && w.original == original
      invariant fresh(w) && fresh(kernel)
      invariant w.Valid()
      invariant forall i :: 0 <= i < |kernel.history| ==> Safe(kernel.history[i], original, backend)
    {
      match events[n] {
        case ApplyRules(rules) =>
          var _ := w.Apply(rules);
        case Repair =>
          if backend == Iptables { var _ := w.InsertBaseRules(); }
        case CrashDuring(rules) =>
          var before := |kernel.history|;
          var _ := w.Apply(rules);
          if before < |kernel.history| {
            var at :| before <= at < |kernel.history|;
            kernel.CrashAt(at);
          }
          w := new Watcher(kernel, backend, original);
      }
    }
  }
}
