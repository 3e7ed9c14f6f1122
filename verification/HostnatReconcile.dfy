/** Detecting and repairing drift of the natively owned NAT table. */
module HostnatReconcile {
  import opened StringOrder
  import opened Wrappers
  import opened Cidr
  import opened Lists
  import opened Netfilter
  import opened HostnatRules

  datatype ChainSpec = ChainSpec(kind: string, hook: string, prio: int, policy: string)
  datatype Chain = Chain(spec: Option<ChainSpec>, rules: seq<Rule>)

  type Table = map<string, Chain>
  type Tables = map<string, Table>

  const TABLE_NAME := "pasturestack_hostnat"
  const CHAIN_NAME := "postrouting"
  const WANTED := ChainSpec("nat", "postrouting", 99, "accept")

  // --- nft's batch language, as far as the generator uses it ------------------

  datatype Command =
    | AddTable(table: string) | DeleteTable(table: string)
    | AddChain(table: string, chain: string, spec: ChainSpec)
    | FlushChain(table: string, chain: string)
    | AddRule(table: string, chain: string, rule: Rule)

  function PutChain(ts: Tables, t: string, c: string, chain: Chain): Tables
    requires t in ts
  {
    ts[t := ts[t][c := chain]]
  }

  /** One command; `None` rejects the whole batch. An existing base chain accepts
      a new policy but not a new type, hook or priority. */
  function Exec(cmd: Command, ts: Tables): Option<Tables> {
    match cmd
    case AddTable(t) => Some(if t in ts then ts else ts[t := map[]])
    case DeleteTable(t) => if t in ts then Some(ts - {t}) else None
    case AddChain(t, c, spec) =>
      if t !in ts then None
      else if c !in ts[t] then Some(PutChain(ts, t, c, Chain(Some(spec), [])))
      else
        (match ts[t][c].spec
         case Some(live) =>
           if live.(policy := spec.policy) == spec then Some(PutChain(ts, t, c, Chain(Some(spec), ts[t][c].rules))) else None
         case None => None)
    case FlushChain(t, c) =>
      if t in ts && c in ts[t] then Some(PutChain(ts, t, c, ts[t][c].(rules := []))) else None
    case AddRule(t, c, r) =>
      if t in ts && c in ts[t] then Some(PutChain(ts, t, c, ts[t][c].(rules := ts[t][c].rules + [r]))) else None
  }

  function ExecAll(cmds: seq<Command>, ts: Tables): Option<Tables> {
    if cmds == [] then Some(ts)
    else
      match Exec(cmds[0], ts)
      case None => None
      case Some(next) => ExecAll(cmds[1..], next)
  }

  function AddRules(chain: seq<Rule>): seq<Command> {
    seq(|chain|, i requires 0 <= i < |chain| => AddRule(TABLE_NAME, CHAIN_NAME, chain[i]))
  }

  ghost function PlainScript(rules: RuleSet): seq<Command> {
    [AddTable(TABLE_NAME), AddChain(TABLE_NAME, CHAIN_NAME, WANTED), FlushChain(TABLE_NAME, CHAIN_NAME)]
    + AddRules(NftChain(rules))
  }

  ghost function ReplaceScript(rules: RuleSet): seq<Command> {
    [DeleteTable(TABLE_NAME)] + PlainScript(rules)
  }

  // --- what the scripts do --------------------------------------------------

  ghost predicate Owned(ts: Tables) { TABLE_NAME in ts && CHAIN_NAME in ts[TABLE_NAME] }

  ghost predicate GoodHook(ts: Tables) { Owned(ts) && ts[TABLE_NAME][CHAIN_NAME].spec == Some(WANTED) }

  /** `ts` with the owned chain holding exactly `chain`, everything else kept. */
  ghost function With(ts: Tables, chain: seq<Rule>): Tables {
    ts[TABLE_NAME := (if TABLE_NAME in ts then ts[TABLE_NAME] else map[])[CHAIN_NAME := Chain(Some(WANTED), chain)]]
  }

  lemma Rewritten(ts: Tables, a: seq<Rule>, b: seq<Rule>)
    ensures PutChain(With(ts, a), TABLE_NAME, CHAIN_NAME, Chain(Some(WANTED), b)) == With(ts, b)
  {
    var table := if TABLE_NAME in ts then ts[TABLE_NAME] else map[];
    assert With(ts, a)[TABLE_NAME][CHAIN_NAME := Chain(Some(WANTED), b)] == table[CHAIN_NAME := Chain(Some(WANTED), b)];
  }

  lemma {:induction false} AddingRules(chain: seq<Rule>, have: seq<Rule>, ts: Tables)
    ensures ExecAll(AddRules(chain), With(ts, have)) == Some(With(ts, have + chain))
  {
    if chain == [] {
      assert have + chain == have;
    } else {
      var cmds := AddRules(chain);
      var next := With(ts, have + [chain[0]]);
      Rewritten(ts, have, have + [chain[0]]);
      assert Exec(cmds[0], With(ts, have)) == Some(next);
      assert cmds[1..] == AddRules(chain[1..]);
      AddingRules(chain[1..], have + [chain[0]], ts);
      assert have + [chain[0]] + chain[1..] == have + chain;
    }
  }

  /** An existing chain with another hook is beyond `add chain`. */
  ghost predicate Foreign(ts: Tables) {
    Owned(ts) && (ts[TABLE_NAME][CHAIN_NAME].spec.None? ||
                  ts[TABLE_NAME][CHAIN_NAME].spec.value.(policy := "accept") != WANTED)
  }

  lemma ExecCons(cmd: Command, rest: seq<Command>, ts: Tables)
    ensures ExecAll([cmd] + rest, ts)
         == if Exec(cmd, ts).None? then None else ExecAll(rest, Exec(cmd, ts).value)
  {
    assert ([cmd] + rest)[1..] == rest;
  }

  /** Creating, hooking and flushing the chain leads from every state without a
      foreign hook to the same empty chain. */
  lemma PreludeWorks(rest: seq<Command>, ts: Tables)
    ensures ExecAll([AddTable(TABLE_NAME), AddChain(TABLE_NAME, CHAIN_NAME, WANTED), FlushChain(TABLE_NAME, CHAIN_NAME)] + rest, ts)
         == if Foreign(ts) then None else ExecAll(rest, With(ts, []))
  {
    var flush := [FlushChain(TABLE_NAME, CHAIN_NAME)] + rest;
    var hook := [AddChain(TABLE_NAME, CHAIN_NAME, WANTED)] + flush;
    assert [AddTable(TABLE_NAME), AddChain(TABLE_NAME, CHAIN_NAME, WANTED), FlushChain(TABLE_NAME, CHAIN_NAME)] + rest
        == [AddTable(TABLE_NAME)] + hook;
    var base := if TABLE_NAME in ts then ts else ts[TABLE_NAME := map[]];
    ExecCons(AddTable(TABLE_NAME), hook, ts);
    ExecCons(AddChain(TABLE_NAME, CHAIN_NAME, WANTED), flush, base);
    if !Foreign(ts) {
      var have := if Owned(base) then base[TABLE_NAME][CHAIN_NAME].rules else [];
      var table := if TABLE_NAME in ts then ts[TABLE_NAME] else map[];
      assert base[TABLE_NAME] == table;
      assert PutChain(base, TABLE_NAME, CHAIN_NAME, Chain(Some(WANTED), have))
          == base[TABLE_NAME := table[CHAIN_NAME := Chain(Some(WANTED), have)]] == With(ts, have);
      ExecCons(FlushChain(TABLE_NAME, CHAIN_NAME), rest, With(ts, have));
      Rewritten(ts, have, []);
    }
  }

  lemma PlainScriptWorks(rules: RuleSet, ts: Tables)
    ensures ExecAll(PlainScript(rules), ts)
         == if Foreign(ts) then None else Some(With(ts, NftChain(rules)))
  {
    PreludeWorks(AddRules(NftChain(rules)), ts);
    AddingRules(NftChain(rules), [], ts);
    assert [] + NftChain(rules) == NftChain(rules);
  }

  lemma ReplaceScriptWorks(rules: RuleSet, ts: Tables)
    ensures ExecAll(ReplaceScript(rules), ts)
         == if TABLE_NAME in ts then Some(With(ts - {TABLE_NAME}, NftChain(rules))) else None
  {
    var cmds := ReplaceScript(rules);
    assert cmds[1..] == PlainScript(rules);
    if TABLE_NAME in ts { PlainScriptWorks(rules, ts - {TABLE_NAME}); }
  }

  // --- the health check -------------------------------------------------------

  /** One object of `nft -j list chain`; a chain without a hook lists zero values. */
  datatype Entry =
    | ChainEntry(family: string, table: string, name: string, spec: ChainSpec)
    | RuleEntry(family: string, table: string, chain: string)

  function Listing(ts: Tables): seq<Entry>
    requires TABLE_NAME in ts && CHAIN_NAME in ts[TABLE_NAME]
  {
    var chain := ts[TABLE_NAME][CHAIN_NAME];
    var spec := match chain.spec case Some(s) => s case None => ChainSpec("", "", 0, "");
    [ChainEntry("ip", TABLE_NAME, CHAIN_NAME, spec)] + seq(|chain.rules|, i => RuleEntry("ip", TABLE_NAME, CHAIN_NAME))
  }

  predicate GoodEntry(e: Entry) {
    e.ChainEntry? && e.family == "ip" && e.table == TABLE_NAME && e.name == CHAIN_NAME && e.spec == WANTED
  }

  /** The last chain object decides, as the loop overwrites its flag. */
  function BaseFound(entries: seq<Entry>): bool {
    if entries == [] then false
    else
      var last := entries[|entries| - 1];
      if last.ChainEntry? then GoodEntry(last) else BaseFound(entries[..|entries| - 1])
  }

  function RuleCount(entries: seq<Entry>): nat {
    if entries == [] then 0
    else
      RuleCount(entries[..|entries| - 1]) +
      if entries[|entries| - 1] == RuleEntry("ip", TABLE_NAME, CHAIN_NAME) then 1 else 0
  }

  datatype Health = Healthy | HookMismatch | Lost

  ghost function Checked(entries: Option<seq<Entry>>, applied: RuleSet): Health {
    match entries
    case None => Lost
    case Some(es) =>
      if !BaseFound(es) then HookMismatch
      else if RuleCount(es) != |NftChain(applied)| then Lost else Healthy
  }

  lemma {:induction false} MasqLength(rules: RuleSet, keys: seq<string>)
    requires forall i :: 0 <= i < |keys| ==> keys[i] in rules.masq
    ensures |FlatMap(Values(rules.masq, keys), NftMasq)| == 4 * |keys| + Sum(keys, k => PeerCount(rules, k))
  {
    if keys != [] {
      var init, last := keys[..|keys| - 1], keys[|keys| - 1];
      MasqLength(rules, init);
      var values := Values(rules.masq, keys);
      assert values[..|values| - 1] == Values(rules.masq, init);
      OnePerElement(rules.masq[last].peers, PeerRuleFor(rules.masq[last].subnet));
    }
  }

  function PeerCount(rules: RuleSet, key: string): nat { if key in rules.masq then |rules.masq[key].peers| else 0 }

  lemma {:induction false} OnePerElement<A>(xs: seq<A>, f: A -> seq<Rule>)
    requires forall x :: x in xs ==> |f(x)| == 1
    ensures |FlatMap(xs, f)| == |xs|
  {
    if xs != [] {
      assert forall x :: x in xs[..|xs| - 1] ==> x in xs;
      OnePerElement(xs[..|xs| - 1], f);
    }
  }

  lemma ChainLength(rules: RuleSet, order: seq<string>)
    requires multiset(order) == multiset(rules.masq.Keys)
    ensures |NftChain(rules)| == |rules.ike| + 4 * |rules.masq| + Sum(order, k => PeerCount(rules, k))
  {
    var keys := SortedKeys(rules.masq.Keys);
    SortedKeysSorted(rules.masq.Keys);
    SortedKeysSorted(rules.ike.Keys);
    OnlyKeysListed(rules.masq.Keys);
    SumIgnoresOrder(order, keys, k => PeerCount(rules, k));
    MasqLength(rules, keys);
    OnePerElement(SortedValues(rules.ike), NftIke);
  }

  method WantedRules(applied: RuleSet) returns (count: nat)
    ensures count == |NftChain(applied)|
  {
    count := |applied.ike| + 4 * |applied.masq|;
    var order := AnyOrder(applied.masq.Keys);
    ghost var weight := k => PeerCount(applied, k);
    for i := 0 to |order|
      invariant count == |applied.ike| + 4 * |applied.masq| + Sum(order[..i], weight)
    {
      assert order[..i + 1][..i] == order[..i];
      count := count + |applied.masq[order[i]].peers|;
    }
    assert order[..|order|] == order;
    ChainLength(applied, order);
  }

  /** `checkNativeState` on the decoded listing of the owned chain. */
  method CheckNativeState(entries: Option<seq<Entry>>, applied: RuleSet) returns (health: Health)
    ensures health == Checked(entries, applied)
  {
    if entries.None? { return Lost; }
    var es := entries.value;
    var baseFound, ruleCount := false, 0;
    for i := 0 to |es|
      invariant baseFound == BaseFound(es[..i]) && ruleCount == RuleCount(es[..i])
    {
      assert es[..i + 1][..i] == es[..i];
      if es[i].ChainEntry? {
        baseFound := es[i].family == "ip" && es[i].table == TABLE_NAME && es[i].name == CHAIN_NAME && es[i].spec == WANTED;
      } else if es[i].family == "ip" && es[i].table == TABLE_NAME && es[i].chain == CHAIN_NAME {
        ruleCount := ruleCount + 1;
      }
    }
    assert es[..|es|] == es;
    if !baseFound { return HookMismatch; }
    var want := WantedRules(applied);
    health := if ruleCount != want then Lost else Healthy;
  }

  lemma {:induction false} CountListed(head: seq<Entry>, n: nat)
    requires forall i :: 0 <= i < |head| ==> head[i].ChainEntry?
    ensures RuleCount(head + seq(n, i => RuleEntry("ip", TABLE_NAME, CHAIN_NAME))) == n
    ensures BaseFound(head + seq(n, i => RuleEntry("ip", TABLE_NAME, CHAIN_NAME))) == BaseFound(head)
    decreases |head| + n
  {
    var all := head + seq(n, i => RuleEntry("ip", TABLE_NAME, CHAIN_NAME));
    if n > 0 {
      CountListed(head, n - 1);
      assert all[..|all| - 1] == head + seq(n - 1, i => RuleEntry("ip", TABLE_NAME, CHAIN_NAME));
    } else if head != [] {
      assert all == head;
      CountListed(head[..|head| - 1], 0);
      assert head[..|head| - 1] + seq(0, i => RuleEntry("ip", TABLE_NAME, CHAIN_NAME)) == head[..|head| - 1];
    }
  }

  ghost function HealthOf(ts: Tables, applied: RuleSet): Health {
    Checked(if Owned(ts) then Some(Listing(ts)) else None, applied)
  }

  /** What the check can and cannot see of the live tables. */
  lemma HealthIsExact(ts: Tables, applied: RuleSet)
    ensures HealthOf(ts, applied) == Healthy <==>
      GoodHook(ts) && |ts[TABLE_NAME][CHAIN_NAME].rules| == |NftChain(applied)|
    ensures HealthOf(ts, applied) == HookMismatch <==> Owned(ts) && !GoodHook(ts)
  {
    if Owned(ts) {
      var head := Listing(ts)[..1];
      CountListed(head, |ts[TABLE_NAME][CHAIN_NAME].rules|);
      assert Listing(ts) == head + seq(|ts[TABLE_NAME][CHAIN_NAME].rules|, i => RuleEntry("ip", TABLE_NAME, CHAIN_NAME));
      assert head[..|head| - 1] == [];
    }
  }

  // --- reconciliation ---------------------------------------------------------

  /** The tables one fault-free reconciliation leaves. */
  ghost function Reconciled(ts: Tables, applied: RuleSet): Tables {
    match HealthOf(ts, applied)
    case Healthy => ts
    case HookMismatch => With(ts - {TABLE_NAME}, NftChain(applied))
    case Lost => With(ts, NftChain(applied))
  }

  ghost function ScriptFor(health: Health, applied: RuleSet): seq<Command> {
    if health == HookMismatch then ReplaceScript(applied) else PlainScript(applied)
  }

  /** The chosen batch is one nft commits; the other one can be rejected. */
  lemma ChosenScriptCommits(ts: Tables, applied: RuleSet)
    requires HealthOf(ts, applied) != Healthy
    ensures ExecAll(ScriptFor(HealthOf(ts, applied), applied), ts) == Some(Reconciled(ts, applied))
  {
    HealthIsExact(ts, applied);
    PlainScriptWorks(applied, ts);
    ReplaceScriptWorks(applied, ts);
  }

  /** From any drifted state the result is healthy, holds exactly the generated
      rules and keeps every other table; reconciling again changes nothing. */
  lemma ReconcileRepairs(ts: Tables, applied: RuleSet)
    requires HealthOf(ts, applied) != Healthy
    ensures var next := Reconciled(ts, applied);
      && HealthOf(next, applied) == Healthy
      && GoodHook(next) && next[TABLE_NAME][CHAIN_NAME].rules == NftChain(applied)
      && next - {TABLE_NAME} == ts - {TABLE_NAME}
      && Reconciled(next, applied) == next
  {
    var next := Reconciled(ts, applied);
    HealthIsExact(ts, applied);
    HealthIsExact(next, applied);
    assert next - {TABLE_NAME} == ts - {TABLE_NAME};
  }

  /** The check counts rules without reading them, so the chain is right
      afterwards except when it was altered rule for rule under a good hook. */
  lemma ReconcileIsExact(ts: Tables, applied: RuleSet)
    ensures var next := Reconciled(ts, applied);
      (Owned(next) && next[TABLE_NAME][CHAIN_NAME] == Chain(Some(WANTED), NftChain(applied))) <==>
      !(GoodHook(ts) && |ts[TABLE_NAME][CHAIN_NAME].rules| == |NftChain(applied)| &&
        ts[TABLE_NAME][CHAIN_NAME].rules != NftChain(applied))
  {
    HealthIsExact(ts, applied);
    if HealthOf(ts, applied) != Healthy { ReconcileRepairs(ts, applied); }
  }

  /** Whatever was applied, some exchange of its rules is healthy in the eyes of
      the check, and reconciling leaves the wrong rules in place. */
  lemma ExchangedRulesGoUnseen(applied: RuleSet) returns (ts: Tables)
    requires applied.masq != map[] || applied.ike != map[]
    ensures GoodHook(ts) && ts[TABLE_NAME][CHAIN_NAME].rules != NftChain(applied)
    ensures HealthOf(ts, applied) == Healthy && Reconciled(ts, applied) == ts
  {
    var order := SortedKeys(applied.masq.Keys);
    SortedKeysSorted(applied.masq.Keys);
    ChainLength(applied, order);
    var chain := NftChain(applied);
    assert applied.masq != map[] ==> applied.masq.Keys != {};
    assert applied.ike != map[] ==> applied.ike.Keys != {};
    var other := if chain[0].action == Drop then chain[0].(action := Accept) else chain[0].(action := Drop);
    var exchanged := chain[0 := other];
    assert exchanged[0] != chain[0];
    ts := map[TABLE_NAME := map[CHAIN_NAME := Chain(Some(WANTED), exchanged)]];
    HealthIsExact(ts, applied);
  }

  class Nft {
    var tables: Tables
    /** How often a command failed for a reason of its own. */
    ghost var faults: nat

    method ListChain() returns (entries: Option<seq<Entry>>)
      modifies this`faults
      ensures faults >= old(faults)
      ensures faults == old(faults) ==> entries == if Owned(tables) then Some(Listing(tables)) else None
    {
      if * {
        faults := faults + 1;
        return None;
      }
      entries := if TABLE_NAME in tables && CHAIN_NAME in tables[TABLE_NAME] then Some(Listing(tables)) else None;
    }

    /** `nft -c -f -`: accepts exactly what a commit would, and changes nothing. */
    method Preflight(script: seq<Command>) returns (ok: bool)
      modifies this`faults
      ensures faults >= old(faults)
      ensures ok ==> ExecAll(script, tables).Some?
      ensures faults == old(faults) ==> ok == ExecAll(script, tables).Some?
    {
      if * {
        faults := faults + 1;
        return false;
      }
      ok := ExecAll(script, tables).Some?;
    }

    method Commit(script: seq<Command>) returns (ok: bool)
      modifies this`tables, this`faults
      ensures faults >= old(faults)
      ensures tables == if ok && ExecAll(script, old(tables)).Some? then ExecAll(script, old(tables)).value else old(tables)
      ensures faults == old(faults) ==> ok == ExecAll(script, old(tables)).Some?
      ensures ok ==> ExecAll(script, old(tables)).Some?
    {
      if * {
        faults := faults + 1;
        return false;
      }
      var next := ExecAll(script, tables);
      ok := next.Some?;
      if ok { tables := next.value; }
    }

    /** `sysctl -w`; the setting itself is outside these tables. */
    method EnableLocalRouting(bridge: string) returns (ok: bool)
      modifies this`faults
      ensures faults >= old(faults)
      ensures faults == old(faults) ==> ok
    {
      ok := *;
      if !ok { faults := faults + 1; }
    }
  }

  class Watcher {
    const nft: Nft
    var applied: RuleSet
    var everApplied: bool
    /** Readiness reports, oldest first: `true` is healthy. */
    var reports: seq<bool>

    ghost predicate Valid()
      reads this
    {
      everApplied ==> ValidRules(applied)
    }

    constructor (nft: Nft)
      ensures this.nft == nft && !everApplied && reports == [] && Valid()
    {
      this.nft := nft;
      applied, everApplied, reports := RuleSet(map[], map[]), false, [];
    }

    method BuildPlain(rules: RuleSet) returns (script: seq<Command>)
      ensures script == PlainScript(rules)
    {
      var chain := CompileNft(rules);
      script := [AddTable(TABLE_NAME), AddChain(TABLE_NAME, CHAIN_NAME, WANTED), FlushChain(TABLE_NAME, CHAIN_NAME)]
        + AddRules(chain);
    }

    method ApplyScript(rules: RuleSet, script: seq<Command>) returns (ok: bool)
      requires Valid() && ValidRules(rules)
      modifies this`applied, this`everApplied, nft
      ensures Valid() && nft.faults >= old(nft.faults)
      ensures ok ==> ExecAll(script, old(nft.tables)) == Some(nft.tables) && applied == rules && everApplied
      ensures !ok ==> nft.tables == old(nft.tables) && applied == old(applied) && everApplied == old(everApplied)
      ensures nft.faults == old(nft.faults) ==> ok == ExecAll(script, old(nft.tables)).Some?
    {
      var accepted := nft.Preflight(script);
      if !accepted { return false; }
      var order := AnyOrder(rules.masq.Keys);
      for i := 0 to |order|
        invariant nft.tables == old(nft.tables) && nft.faults >= old(nft.faults)
        invariant applied == old(applied) && everApplied == old(everApplied)
      {
        var routed := nft.EnableLocalRouting(rules.masq[order[i]].bridge);
        if !routed { return false; }
      }
      var committed := nft.Commit(script);
      if !committed { return false; }
      applied, everApplied := rules, true;
      ok := true;
    }

    method ApplyPlain(rules: RuleSet) returns (ok: bool)
      requires Valid()
      modifies this`applied, this`everApplied, nft
      ensures Valid() && nft.faults >= old(nft.faults)
      ensures ok ==> ExecAll(PlainScript(rules), old(nft.tables)) == Some(nft.tables) && applied == rules && everApplied
      ensures !ok ==> nft.tables == old(nft.tables) && applied == old(applied) && everApplied == old(everApplied)
      ensures nft.faults == old(nft.faults) ==>
        ok == (ValidRules(rules) && ExecAll(PlainScript(rules), old(nft.tables)).Some?)
    {
      if !ValidRules(rules) { return false; }
      var script := BuildPlain(rules);
      ok := ApplyScript(rules, script);
    }

    method ApplyReplacing(rules: RuleSet) returns (ok: bool)
      requires Valid()
      modifies this`applied, this`everApplied, nft
      ensures Valid() && nft.faults >= old(nft.faults)
      ensures ok ==> ExecAll(ReplaceScript(rules), old(nft.tables)) == Some(nft.tables) && applied == rules && everApplied
      ensures !ok ==> nft.tables == old(nft.tables) && applied == old(applied) && everApplied == old(everApplied)
      ensures nft.faults == old(nft.faults) ==>
        ok == (ValidRules(rules) && ExecAll(ReplaceScript(rules), old(nft.tables)).Some?)
    {
      if !ValidRules(rules) { return false; }
      var script := BuildPlain(rules);
      ok := ApplyScript(rules, [DeleteTable(TABLE_NAME)] + script);
    }

    /** Pick the batch that fits what was found. */
    method Rebuild(health: Health) returns (ok: bool)
      requires Valid() && everApplied && health != Healthy
      modifies this`applied, this`everApplied, nft
      ensures Valid() && nft.faults >= old(nft.faults) && everApplied && applied == old(applied)
      ensures ok ==> ExecAll(ScriptFor(health, applied), old(nft.tables)) == Some(nft.tables)
      ensures !ok ==> nft.tables == old(nft.tables)
      ensures nft.faults == old(nft.faults) && health == HealthOf(old(nft.tables), applied) ==>
        ok && nft.tables == Reconciled(old(nft.tables), applied)
    {
      if health == HealthOf(nft.tables, applied) { ChosenScriptCommits(nft.tables, applied); }
      if health == HookMismatch {
        ok := ApplyReplacing(applied);
      } else {
        ok := ApplyPlain(applied);
      }
    }

    method Assess() returns (health: Health)
      modifies nft`faults
      ensures nft.faults >= old(nft.faults)
      ensures nft.faults == old(nft.faults) ==> health == HealthOf(nft.tables, applied)
    {
      var listing := nft.ListChain();
      health := CheckNativeState(listing, applied);
    }

    /** Without faults a drifted table is rebuilt and unhealthy is reported before
        healthy; whatever fails, nothing but a complete batch reaches the tables. */
    method ReconcileNativeState() returns (ghost said: seq<bool>)
      requires Valid()
      modifies this, nft
      ensures Valid() && everApplied == old(everApplied) && applied == old(applied)
      ensures reports == old(reports) + said && said in {[], [false, true], [false, false]}
      ensures !everApplied ==> nft.tables == old(nft.tables) && said == []
      ensures everApplied && nft.faults == old(nft.faults) ==>
        nft.tables == Reconciled(old(nft.tables), applied) &&
        said == if HealthOf(old(nft.tables), applied) == Healthy then [] else [false, true]
      ensures said != [false, true] ==> nft.tables == old(nft.tables)
      ensures said == [false, true] ==>
        exists health :: ExecAll(ScriptFor(health, applied), old(nft.tables)) == Some(nft.tables)
    {
      said := [];
      if !everApplied { return; }
      var health := Assess();
      if health == Healthy { return; }
      reports := reports + [false];
      var ok := Rebuild(health);
      reports := reports + [ok];
      said := [false, ok];
    }
  }

  /** The hook in full: source translation before Docker's own at priority 99. */
  lemma HookInFull(ts: Tables)
    ensures GoodHook(ts) <==>
      "pasturestack_hostnat" in ts && "postrouting" in ts["pasturestack_hostnat"] &&
      ts["pasturestack_hostnat"]["postrouting"].spec == Some(ChainSpec("nat", "postrouting", 99, "accept"))
  {
  }
}
