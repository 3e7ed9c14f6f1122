/** The periodic audit of the native hostport table: it sees only chain headers
    and a count of rules, and must agree with the generator about both. */
module HostportsAudit {
  import opened StringOrder
  import opened Lists
  import opened Netfilter
  import opened HostportsRules

  const TABLE_NAME := "pasturestack_hostports"

  /** Chain names as the audit tells them apart. */
  datatype ChainName = RawPrerouting | Prerouting | Output | Postrouting | Forward | Unknown(text: string)

  datatype ChainSpec = ChainSpec(kind: string, hook: string, prio: int, policy: string)

  /** One object of `nft -j list table`. */
  datatype Item =
    | ChainItem(family: string, table: string, name: ChainName, spec: ChainSpec)
    | RuleItem(family: string, table: string, chain: ChainName)
    | OtherItem

  const CHAIN_NAMES: set<ChainName> := {RawPrerouting, Prerouting, Output, Postrouting, Forward}

  function WantedSpec(name: ChainName): ChainSpec {
    match name
    case RawPrerouting => ChainSpec("filter", "prerouting", -300, "accept")
    case Prerouting => ChainSpec("nat", "prerouting", -101, "accept")
    case Output => ChainSpec("nat", "output", -101, "accept")
    case Postrouting => ChainSpec("nat", "postrouting", 99, "accept")
    case Forward => ChainSpec("filter", "forward", -1, "accept")
    case Unknown(_) => ChainSpec("", "", 0, "")
  }

  /** The chain headers the generator writes, in its own place in the program. */
  function GeneratedSpec(name: ChainName): ChainSpec
    requires !name.Unknown?
  {
    match name
    case RawPrerouting => ChainSpec("filter", "prerouting", -300, "accept")
    case Prerouting => ChainSpec("nat", "prerouting", -101, "accept")
    case Output => ChainSpec("nat", "output", -101, "accept")
    case Postrouting => ChainSpec("nat", "postrouting", 99, "accept")
    case Forward => ChainSpec("filter", "forward", -1, "accept")
  }

  /** The audit expects the headers the generator writes: packets pass the raw guard
      first, destinations are rewritten before and sources after Docker's own chains,
      forwarding is decided before the ordinary filter. */
  lemma HeadersAgree(name: ChainName)
    requires name in CHAIN_NAMES
    ensures WantedSpec(name) == GeneratedSpec(name)
    ensures GeneratedSpec(name).policy == "accept"
    ensures GeneratedSpec(name).hook ==
            (if name == Output then "output" else if name == Postrouting then "postrouting"
             else if name == Forward then "forward" else "prerouting")
    ensures GeneratedSpec(name).kind == if name == RawPrerouting || name == Forward then "filter" else "nat"
    ensures GeneratedSpec(name).prio ==
            (if name == RawPrerouting then -300 else if name == Forward then -1 else if name == Postrouting then 99 else -101)
  {
  }

  function ChainOf(t: NftTable, name: ChainName): seq<Rule> {
    match name
    case RawPrerouting => t.raw
    case Prerouting => t.prerouting
    case Output => t.output
    case Postrouting => t.postrouting
    case Forward => t.forward
    case Unknown(_) => []
  }

  predicate OwnedRule(item: Item, name: ChainName) {
    item.RuleItem? && item.family == "ip" && item.table == TABLE_NAME && item.chain == name
  }

  function CountRules(listing: seq<Item>, name: ChainName): nat {
    if listing == [] then 0
    else CountRules(listing[..|listing| - 1], name) + if OwnedRule(listing[|listing| - 1], name) then 1 else 0
  }

  predicate GoodHeader(item: Item) {
    item.ChainItem? && item.name in CHAIN_NAMES ==>
      item.family == "ip" && item.table == TABLE_NAME && item.spec == WantedSpec(item.name)
  }

  ghost predicate HasChain(listing: seq<Item>, name: ChainName) {
    exists i :: 0 <= i < |listing| && listing[i].ChainItem? && listing[i].name == name
  }

  /** What the audit promises to decide. */
  ghost predicate Passes(listing: seq<Item>, applied: RuleSet) {
    PassesFor(listing, NftCompiled(applied))
  }

  ghost predicate PassesFor(listing: seq<Item>, t: NftTable) {
    (forall i :: 0 <= i < |listing| ==> GoodHeader(listing[i])) &&
    (forall name :: name in CHAIN_NAMES ==>
      HasChain(listing, name) && CountRules(listing, name) == |ChainOf(t, name)|)
  }

  // --- lengths of generated chains ---------------------------------------

  function BridgedWeight(rules: RuleSet, key: string): nat {
    if key in rules.ports && rules.ports[key].bridge != "" then 1 else 0
  }

  lemma TimesNext(size: nat, n: nat)
    ensures size * (n + 1) == size * n + size
  {
  }

  lemma {:induction false} FlatMapLength<A>(xs: seq<A>, f: A -> seq<Rule>, size: nat)
    requires forall x :: x in xs ==> |f(x)| == size
    ensures |FlatMap(xs, f)| == size * |xs|
  {
    if xs != [] {
      var init := xs[..|xs| - 1];
      assert forall x :: x in init ==> x in xs;
      FlatMapLength(init, f, size);
      TimesNext(size, |init|);
    }
  }

  lemma {:induction false} BridgedLength(rules: RuleSet, keys: seq<string>, f: PortRule -> seq<Rule>, base: nat)
    requires forall i :: 0 <= i < |keys| ==> keys[i] in rules.ports
    requires forall p: PortRule :: |f(p)| == base + if p.bridge != "" then 1 else 0
    ensures |FlatMap(Values(rules.ports, keys), f)| == base * |keys| + Sum(keys, k => BridgedWeight(rules, k))
  {
    if keys != [] {
      var init, last := keys[..|keys| - 1], keys[|keys| - 1];
      BridgedLength(rules, init, f, base);
      var ports := Values(rules.ports, keys);
      assert ports[..|ports| - 1] == Values(rules.ports, init);
      assert |f(rules.ports[last])| == base + BridgedWeight(rules, last);
      TimesNext(base, |init|);
    }
  }

  lemma PortChainLengths(rules: RuleSet, keys: seq<string>)
    requires multiset(keys) == multiset(rules.ports.Keys)
    ensures |keys| == |rules.ports|
    ensures var bridged := Sum(keys, k => BridgedWeight(rules, k));
      && |NftCompiled(rules).prerouting| == |rules.ports| + bridged
      && |NftCompiled(rules).output| == |rules.ports|
      && |NftCompiled(rules).postrouting| == 2 * |rules.ports| + bridged
  {
    var sorted := SortedKeys(rules.ports.Keys);
    SortedKeysSorted(rules.ports.Keys);
    OnlyKeysListed(rules.ports.Keys);
    assert |keys| == |multiset(keys)|;
    SumIgnoresOrder(keys, sorted, k => BridgedWeight(rules, k));
    BridgedLength(rules, sorted, NftPrerouting, 1);
    BridgedLength(rules, sorted, NftPostrouting, 2);
    FlatMapLength(SortedPorts(rules), NftOutput, 1);
  }

  lemma ForwardLength(rules: RuleSet)
    ensures |NftCompiled(rules).forward|
         == 2 + 2 * |ForwardNetworks(rules)| + |SharedNetworks(rules)| + |ForwardPairs(rules)| + |rules.ports|
  {
    FlatMapLength(ForwardNetworks(rules), NftNetwork, 2);
    FlatMapLength(SharedNetworks(rules), NftShared, 1);
    FlatMapLength(ForwardPairs(rules), NftPair, 1);
    FlatMapLength(SortedPorts(rules), NftTarget, 1);
    SortedKeysSorted(rules.ports.Keys);
  }

  lemma RawLength(rules: RuleSet)
    ensures |NftCompiled(rules).raw| == |EnabledBridges(rules.routeLocalnet)|
  {
    FlatMapLength(EnabledBridges(rules.routeLocalnet), GuardRule, 1);
  }

  // --- the audit -----------------------------------------------------------

  function Tally(raw: nat, prerouting: nat, output: nat, postrouting: nat, forward: nat): map<ChainName, nat> {
    map[RawPrerouting := raw, Prerouting := prerouting, Output := output, Postrouting := postrouting, Forward := forward]
  }

  function TallyOf(t: NftTable): map<ChainName, nat> {
    Tally(|t.raw|, |t.prerouting|, |t.output|, |t.postrouting|, |t.forward|)
  }

  lemma TallyIsLengths(t: NftTable)
    ensures TallyOf(t).Keys == CHAIN_NAMES
    ensures forall name :: name in CHAIN_NAMES ==> TallyOf(t)[name] == |ChainOf(t, name)|
  {
  }

  method PortCounts(applied: RuleSet) returns (prerouting: nat, output: nat, postrouting: nat)
    ensures prerouting == |NftCompiled(applied).prerouting|
    ensures output == |NftCompiled(applied).output|
    ensures postrouting == |NftCompiled(applied).postrouting|
  {
    prerouting, output, postrouting := 0, 0, 0;
    var order := AnyOrder(applied.ports.Keys);
    ghost var weight := k => BridgedWeight(applied, k);
    for i := 0 to |order|
      invariant output == i
      invariant prerouting == i + Sum(order[..i], weight)
      invariant postrouting == 2 * i + Sum(order[..i], weight)
    {
      SumGrows(order[..i], order[i], weight);
      assert order[..i + 1] == order[..i] + [order[i]];
      prerouting := prerouting + 1;
      if applied.ports[order[i]].bridge != "" {
        prerouting := prerouting + 1;
        postrouting := postrouting + 1;
      }
      output := output + 1;
      postrouting := postrouting + 2;
    }
    assert order[..|order|] == order;
    PortChainLengths(applied, order);
  }

  lemma SumGrows(xs: seq<string>, x: string, f: string -> nat)
    ensures Sum(xs + [x], f) == Sum(xs, f) + f(x)
  {
    assert (xs + [x])[..|xs|] == xs;
  }

  method ForwardCount(applied: RuleSet) returns (count: nat)
    ensures count == |NftCompiled(applied).forward|
  {
    var networks := SortedForwardNetworks(applied);
    var shared := SortedSharedIngressNetworks(applied);
    var pairs := SortedForwardPeers(applied);
    ForwardLength(applied);
    count := 2 + 2 * |networks| + |shared| + |pairs| + |applied.ports|;
  }

  method ExpectedCounts(applied: RuleSet) returns (count: map<ChainName, nat>)
    ensures count == TallyOf(NftCompiled(applied))
  {
    var bridges := SortedEnabledBridges(applied.routeLocalnet);
    var prerouting, output, postrouting := PortCounts(applied);
    RawLength(applied);
    var forward := ForwardCount(applied);
    count := Tally(|bridges|, prerouting, output, postrouting, forward);
  }

  function At(count: map<ChainName, nat>, name: ChainName): nat { if name in count then count[name] else 0 }

  ghost predicate Counted(listing: seq<Item>, want: map<ChainName, nat>) {
    (forall i :: 0 <= i < |listing| ==> GoodHeader(listing[i])) &&
    (forall name :: name in want ==> HasChain(listing, name) && CountRules(listing, name) == want[name])
  }

  method AuditListing(listing: seq<Item>, want: map<ChainName, nat>) returns (ok: bool)
    requires want.Keys == CHAIN_NAMES
    ensures ok <==> Counted(listing, want)
  {
    var seen: set<ChainName> := {};
    var actual: map<ChainName, nat> := map[];
    for i := 0 to |listing|
      invariant forall j :: 0 <= j < i ==> GoodHeader(listing[j])
      invariant forall name :: name in seen <==> name in CHAIN_NAMES && HasChain(listing[..i], name)
      invariant forall name :: At(actual, name) == CountRules(listing[..i], name)
    {
      var item := listing[i];
      assert listing[..i + 1][..i] == listing[..i];
      HasChainGrows(listing, i);
      if item.ChainItem? && item.name in CHAIN_NAMES {
        if item.family != "ip" || item.table != TABLE_NAME || item.spec != WantedSpec(item.name) {
          return false;
        }
        seen := seen + {item.name};
      }
      if item.RuleItem? && item.family == "ip" && item.table == TABLE_NAME {
        actual := actual[item.chain := At(actual, item.chain) + 1];
      }
    }
    assert listing[..|listing|] == listing;
    var names := want.Keys;
    while names != {}
      invariant names <= want.Keys
      invariant forall name :: name in want.Keys - names ==>
        HasChain(listing, name) && CountRules(listing, name) == want[name]
    {
      var name :| name in names;
      if name !in seen || At(actual, name) != want[name] {
        return false;
      }
      names := names - {name};
    }
    return true;
  }

  /** `checkNFTRules` on a decoded listing. */
  method CheckNftRules(listing: seq<Item>, applied: RuleSet) returns (ok: bool)
    ensures ok <==> Passes(listing, applied)
  {
    var want := ExpectedCounts(applied);
    TallyIsLengths(NftCompiled(applied));
    ok := AuditListing(listing, want);
  }

  lemma HasChainGrows(listing: seq<Item>, i: nat)
    requires i < |listing|
    ensures forall name :: HasChain(listing[..i + 1], name) <==>
      HasChain(listing[..i], name) || (listing[i].ChainItem? && listing[i].name == name)
  {
    forall name
      ensures HasChain(listing[..i + 1], name) <==>
        HasChain(listing[..i], name) || (listing[i].ChainItem? && listing[i].name == name)
    {
      if HasChain(listing[..i], name) {
        var j :| 0 <= j < i && listing[..i][j].ChainItem? && listing[..i][j].name == name;
        assert listing[..i + 1][j] == listing[j];
      }
      if listing[i].ChainItem? && listing[i].name == name { assert listing[..i + 1][i] == listing[i]; }
    }
  }

  // --- generator and audit together ---------------------------------------

  /** A live table: headers and rules of every chain it holds. */
  type LiveTable = map<ChainName, (ChainSpec, seq<Rule>)>

  /** `listing` is some listing of exactly the live table, in any order. */
  ghost predicate Describes(listing: seq<Item>, live: LiveTable) {
    (forall i :: 0 <= i < |listing| && listing[i].ChainItem? ==>
      listing[i].family == "ip" && listing[i].table == TABLE_NAME &&
      listing[i].name in live && listing[i].spec == live[listing[i].name].0) &&
    (forall name :: name in live ==> HasChain(listing, name)) &&
    (forall name :: CountRules(listing, name) == if name in live then |live[name].1| else 0)
  }

  ghost function Installed(t: NftTable): LiveTable {
    map name | name in CHAIN_NAMES :: (GeneratedSpec(name), ChainOf(t, name))
  }

  ghost predicate Sound(live: LiveTable, t: NftTable) {
    forall name :: name in CHAIN_NAMES ==> SoundChain(live, t, name)
  }

  ghost predicate SoundChain(live: LiveTable, t: NftTable, name: ChainName) {
    !name.Unknown? && name in live && live[name].0 == GeneratedSpec(name) && |live[name].1| == |ChainOf(t, name)|
  }

  /** The audit passes on a live table exactly when all five chains are there,
      correctly hooked, with as many rules as the generator writes. */
  lemma AuditIsExact(live: LiveTable, listing: seq<Item>, t: NftTable)
    requires Describes(listing, live)
    ensures PassesFor(listing, t) <==> Sound(live, t)
  {
    if PassesFor(listing, t) {
      forall name | name in CHAIN_NAMES ensures SoundChain(live, t, name) {
        var i :| 0 <= i < |listing| && listing[i].ChainItem? && listing[i].name == name;
        assert GoodHeader(listing[i]);
      }
    }
    if Sound(live, t) {
      forall i | 0 <= i < |listing| ensures GoodHeader(listing[i]) {
        if listing[i].ChainItem? && listing[i].name in CHAIN_NAMES { assert SoundChain(live, t, listing[i].name); }
      }
      forall name | name in CHAIN_NAMES ensures HasChain(listing, name) && CountRules(listing, name) == |ChainOf(t, name)| {
        assert SoundChain(live, t, name);
      }
    }
  }

  lemma OneChainChanged(t: NftTable, name: ChainName, changed: seq<Rule>)
    requires name in CHAIN_NAMES
    ensures Sound(Installed(t)[name := (GeneratedSpec(name), changed)], t) <==> |changed| == |ChainOf(t, name)|
  {
    var live := Installed(t)[name := (GeneratedSpec(name), changed)];
    assert live[name] == (GeneratedSpec(name), changed);
    if |changed| == |ChainOf(t, name)| {
      forall n | n in CHAIN_NAMES ensures SoundChain(live, t, n) {
        assert n != name ==> live[n] == (GeneratedSpec(n), ChainOf(t, n));
      }
    }
    if Sound(live, t) { assert SoundChain(live, t, name); }
  }

  /** The table written for a rule set passes its audit; taking any rule out of
      any chain, or putting one in, makes the audit fail. */
  lemma AuditAgreesWithGenerator(rules: RuleSet, name: ChainName, changed: seq<Rule>, listing: seq<Item>)
    requires name in CHAIN_NAMES
    requires Describes(listing, Installed(NftCompiled(rules))[name := (GeneratedSpec(name), changed)])
    ensures changed == ChainOf(NftCompiled(rules), name) ==> Passes(listing, rules)
    ensures |changed| != |ChainOf(NftCompiled(rules), name)| ==> !Passes(listing, rules)
  {
    AuditIsExact(Installed(NftCompiled(rules))[name := (GeneratedSpec(name), changed)], listing, NftCompiled(rules));
    OneChainChanged(NftCompiled(rules), name, changed);
  }
}
