/** The hostport rule set and its two compilations: iptables-restore input and
    the native nft table. */
module HostportsRules {
  import opened StringOrder
  import opened Wrappers
  import opened Cidr
  import opened Lists
  import opened Netfilter

  /** Source address 0 stands for the text "0.0.0.0": publish on every local address. */
  datatype PortRule = PortRule(
    bridge: string, sourceIP: Address, sourcePort: nat, targetIP: Address, targetPort: nat,
    proto: Proto, masqueradeDnat: bool)

  datatype RuleSet = RuleSet(
    ports: map<string, PortRule>,
    forwardSubnets: map<string, string>,
    forwardBridges: map<string, string>,
    forwardPeers: map<string, seq<string>>,
    sharedIngress: map<string, bool>,
    routeLocalnet: map<string, bool>)

  const PUBLISHED_MARK: bv32 := 0x1068
  const KUBERNETES_MARK: bv32 := 0x4000
  const LOOPBACK := Prefix(127 * 0x100_0000, 8)

  /** Indexing a Go map: a missing key reads as the zero value. */
  function Text(m: map<string, string>, k: string): string { if k in m then m[k] else "" }
  predicate Flag(m: map<string, bool>, k: string) { k in m && m[k] }

  function Host(a: Address): Prefix { Prefix(a, 32) }

  // --- validation -------------------------------------------------------

  predicate ValidBridgeName(name: string) {
    0 < |name| <= 15 &&
    forall i :: 0 <= i < |name| ==>
      'a' <= name[i] <= 'z' || 'A' <= name[i] <= 'Z' || '0' <= name[i] <= '9' || name[i] in "_-."
  }

  predicate ValidPort(port: nat) { 0 < port <= 65535 }

  predicate ValidPortRule(p: PortRule) {
    (p.bridge == "" || ValidBridgeName(p.bridge)) &&
    ValidPort(p.sourcePort) && ValidPort(p.targetPort) && (p.proto == Tcp || p.proto == Udp)
  }

  predicate Managed(rules: RuleSet, uuid: string) {
    Text(rules.forwardSubnets, uuid) != "" && Text(rules.forwardBridges, uuid) != ""
  }

  predicate ValidRuleSet(rules: RuleSet) {
    (forall k :: k in rules.ports ==> ValidPortRule(rules.ports[k])) &&
    (forall u :: u in rules.forwardSubnets ==>
      ValidSubnet(rules.forwardSubnets[u]) && ValidBridgeName(Text(rules.forwardBridges, u))) &&
    (forall u :: u in rules.forwardBridges ==> Text(rules.forwardSubnets, u) != "") &&
    (forall u :: u in rules.sharedIngress && rules.sharedIngress[u] ==> Managed(rules, u)) &&
    (forall u :: u in rules.forwardPeers ==>
      Managed(rules, u) &&
      forall i :: 0 <= i < |rules.forwardPeers[u]| ==> ValidSubnet(rules.forwardPeers[u][i])) &&
    (forall b :: b in rules.routeLocalnet ==> ValidBridgeName(b))
  }

  // --- the sorted lists both generators walk ----------------------------

  ghost function EnabledBridges(flags: map<string, bool>): seq<string> {
    SortedKeys(set b | b in flags && flags[b])
  }

  method SortedEnabledBridges(flags: map<string, bool>) returns (names: seq<string>)
    ensures names == EnabledBridges(flags)
  {
    names := CollectSorted(set b | b in flags && flags[b]);
  }

  ghost function SortedPorts(rules: RuleSet): seq<PortRule> {
    SortedValues(rules.ports)
  }

  datatype Network = Network(uuid: string, bridge: string, subnet: string)

  function NetworkAt(rules: RuleSet, uuid: string): Network {
    Network(uuid, Text(rules.forwardBridges, uuid), Text(rules.forwardSubnets, uuid))
  }

  predicate SameIdentity(a: Network, b: Network) { a.bridge == b.bridge && a.subnet == b.subnet }

  ghost predicate Listed(networks: seq<Network>, n: Network) {
    exists i :: 0 <= i < |networks| && SameIdentity(networks[i], n)
  }

  ghost function NetworksOf(rules: RuleSet, keys: seq<string>): seq<Network> {
    if keys == [] then []
    else
      var earlier := NetworksOf(rules, keys[..|keys| - 1]);
      var n := NetworkAt(rules, keys[|keys| - 1]);
      if n.bridge == "" || n.subnet == "" || Listed(earlier, n) then earlier else earlier + [n]
  }

  ghost function ForwardNetworks(rules: RuleSet): seq<Network> {
    NetworksOf(rules, SortedKeys(rules.forwardSubnets.Keys))
  }

  ghost function Identities(networks: seq<Network>): set<(string, string)> {
    set n | n in networks :: (n.bridge, n.subnet)
  }

  lemma ListedIsSeen(networks: seq<Network>, n: Network)
    ensures Listed(networks, n) <==> (n.bridge, n.subnet) in Identities(networks)
  {
    if (n.bridge, n.subnet) in Identities(networks) {
      var m :| m in networks && (m.bridge, m.subnet) == (n.bridge, n.subnet);
      assert SameIdentity(m, n);
    }
  }

  lemma IdentitiesGrow(networks: seq<Network>, n: Network)
    ensures Identities(networks + [n]) == Identities(networks) + {(n.bridge, n.subnet)}
  {
    var all := networks + [n];
    assert all[|networks|] == n;
    assert forall m :: m in all <==> m in networks || m == n;
  }

  method SortedForwardNetworks(rules: RuleSet) returns (result: seq<Network>)
    ensures result == ForwardNetworks(rules)
  {
    var keys := CollectSorted(rules.forwardSubnets.Keys);
    var seen: set<(string, string)> := {};
    result := [];
    for i := 0 to |keys|
      invariant result == NetworksOf(rules, keys[..i])
      invariant seen == Identities(result)
    {
      assert keys[..i + 1][..i] == keys[..i];
      var network := NetworkAt(rules, keys[i]);
      ListedIsSeen(result, network);
      if network.bridge == "" || network.subnet == "" || (network.bridge, network.subnet) in seen {
        continue;
      }
      IdentitiesGrow(result, network);
      seen := seen + {(network.bridge, network.subnet)};
      result := result + [network];
    }
    assert keys[..|keys|] == keys;
  }

  /** Deduplication loses no managed network, keeps only managed networks, and
      keeps the smallest UUID of each (bridge, subnet) pair. */
  lemma {:induction false} NetworksExact(rules: RuleSet, keys: seq<string>)
    requires Ascending(keys)
    ensures forall n :: n in NetworksOf(rules, keys) ==>
      n.uuid in keys && n == NetworkAt(rules, n.uuid) && n.bridge != "" && n.subnet != "" &&
      forall k :: k in keys && SameIdentity(NetworkAt(rules, k), n) ==> Leq(n.uuid, k)
    ensures forall k :: k in keys && NetworkAt(rules, k).bridge != "" && NetworkAt(rules, k).subnet != "" ==>
      Listed(NetworksOf(rules, keys), NetworkAt(rules, k))
  {
    if keys != [] {
      var init, last := keys[..|keys| - 1], keys[|keys| - 1];
      NetworksExact(rules, init);
      var earlier, n := NetworksOf(rules, init), NetworkAt(rules, last);
      var all := NetworksOf(rules, keys);
      assert forall i :: 0 <= i < |earlier| ==> all[i] == earlier[i];
      assert forall k :: k in keys <==> k in init || k == last;
      forall m | m in all
        ensures m.uuid in keys && m == NetworkAt(rules, m.uuid) && m.bridge != "" && m.subnet != "" &&
          forall k :: k in keys && SameIdentity(NetworkAt(rules, k), m) ==> Leq(m.uuid, k)
      {
        if m in earlier {
          assert Leq(m.uuid, last);
        } else {
          assert m == n && !Listed(earlier, n);
          forall k | k in keys && SameIdentity(NetworkAt(rules, k), m) ensures Leq(m.uuid, k) {
            assert k in init ==> Listed(earlier, NetworkAt(rules, k));
            assert k in init ==> Listed(earlier, n);
          }
        }
      }
      forall k | k in keys && NetworkAt(rules, k).bridge != "" && NetworkAt(rules, k).subnet != ""
        ensures Listed(all, NetworkAt(rules, k))
      {
        if k in init {
          var j :| 0 <= j < |earlier| && SameIdentity(earlier[j], NetworkAt(rules, k));
          assert SameIdentity(all[j], NetworkAt(rules, k));
        } else if !Listed(earlier, n) {
          assert SameIdentity(all[|earlier|], n);
        } else {
          var j :| 0 <= j < |earlier| && SameIdentity(earlier[j], n);
          assert SameIdentity(all[j], n);
        }
      }
    }
  }

  ghost function SharedOf(rules: RuleSet, networks: seq<Network>): seq<Network> {
    if networks == [] then []
    else
      var n := networks[|networks| - 1];
      SharedOf(rules, networks[..|networks| - 1]) + if Flag(rules.sharedIngress, n.uuid) then [n] else []
  }

  ghost function SharedNetworks(rules: RuleSet): seq<Network> {
    SharedOf(rules, ForwardNetworks(rules))
  }

  method SortedSharedIngressNetworks(rules: RuleSet) returns (result: seq<Network>)
    ensures result == SharedNetworks(rules)
  {
    var networks := SortedForwardNetworks(rules);
    result := [];
    for i := 0 to |networks|
      invariant result == SharedOf(rules, networks[..i])
    {
      assert networks[..i + 1][..i] == networks[..i];
      if Flag(rules.sharedIngress, networks[i].uuid) {
        result := result + [networks[i]];
      }
    }
    assert networks[..|networks|] == networks;
  }

  lemma {:induction false} SharedExact(rules: RuleSet, networks: seq<Network>)
    ensures forall n :: n in SharedOf(rules, networks) <==> n in networks && Flag(rules.sharedIngress, n.uuid)
  {
    if networks != [] {
      var init := networks[..|networks| - 1];
      SharedExact(rules, init);
      assert forall n :: n in networks <==> n in init || n == networks[|networks| - 1];
    }
  }

  datatype Pair = Pair(peer: string, local: string, bridge: string)

  ghost function PairsFor(rules: RuleSet, uuid: string): (r: seq<Pair>)
    requires uuid in rules.forwardPeers
    ensures |r| == |rules.forwardPeers[uuid]|
  {
    SortSorts(rules.forwardPeers[uuid]);
    var peers := Sort(rules.forwardPeers[uuid]);
    seq(|peers|, i requires 0 <= i < |peers| =>
      Pair(peers[i], Text(rules.forwardSubnets, uuid), Text(rules.forwardBridges, uuid)))
  }

  ghost function PairsOf(rules: RuleSet, keys: seq<string>): seq<Pair>
    requires forall i :: 0 <= i < |keys| ==> keys[i] in rules.forwardPeers
  {
    if keys == [] then [] else PairsOf(rules, keys[..|keys| - 1]) + PairsFor(rules, keys[|keys| - 1])
  }

  ghost function ForwardPairs(rules: RuleSet): seq<Pair> {
    OnlyKeysListed(rules.forwardPeers.Keys);
    PairsOf(rules, SortedKeys(rules.forwardPeers.Keys))
  }

  method PairsOfNetwork(rules: RuleSet, uuid: string) returns (pairs: seq<Pair>)
    requires uuid in rules.forwardPeers
    ensures pairs == PairsFor(rules, uuid)
  {
    var peers := Sort(rules.forwardPeers[uuid]);
    pairs := [];
    for j := 0 to |peers|
      invariant |PairsFor(rules, uuid)| == |peers|
      invariant pairs == PairsFor(rules, uuid)[..j]
    {
      pairs := pairs + [Pair(peers[j], Text(rules.forwardSubnets, uuid), Text(rules.forwardBridges, uuid))];
    }
  }

  method SortedForwardPeers(rules: RuleSet) returns (pairs: seq<Pair>)
    ensures pairs == ForwardPairs(rules)
  {
    var keys := CollectSorted(rules.forwardPeers.Keys);
    OnlyKeysListed(rules.forwardPeers.Keys);
    pairs := [];
    for i := 0 to |keys|
      invariant pairs == PairsOf(rules, keys[..i])
    {
      assert keys[..i + 1][..i] == keys[..i];
      var own := PairsOfNetwork(rules, keys[i]);
      pairs := pairs + own;
    }
    assert keys[..|keys|] == keys;
  }

  predicate PairOf(rules: RuleSet, uuid: string, q: Pair) {
    uuid in rules.forwardPeers && q.peer in rules.forwardPeers[uuid] &&
    q.local == Text(rules.forwardSubnets, uuid) && q.bridge == Text(rules.forwardBridges, uuid)
  }

  lemma PairsForExact(rules: RuleSet, uuid: string, q: Pair)
    requires uuid in rules.forwardPeers
    ensures q in PairsFor(rules, uuid) <==> PairOf(rules, uuid, q)
  {
    var own, peers := PairsFor(rules, uuid), Sort(rules.forwardPeers[uuid]);
    SortSorts(rules.forwardPeers[uuid]);
    assert q.peer in rules.forwardPeers[uuid] <==> q.peer in multiset(peers);
    if PairOf(rules, uuid, q) {
      var j :| 0 <= j < |peers| && peers[j] == q.peer;
      assert own[j] == q;
    }
  }

  /** Every configured peer of every network gets a pair, and nothing else does. */
  lemma {:induction false} PairsExact(rules: RuleSet, keys: seq<string>, q: Pair)
    requires forall i :: 0 <= i < |keys| ==> keys[i] in rules.forwardPeers
    ensures q in PairsOf(rules, keys) <==> exists u :: u in keys && PairOf(rules, u, q)
  {
    if keys != [] {
      var init, last := keys[..|keys| - 1], keys[|keys| - 1];
      PairsExact(rules, init, q);
      PairsForExact(rules, last, q);
      assert forall u :: u in keys <==> u in init || u == last;
    }
  }

  // --- rules of one element ---------------------------------------------

  const ALL_STATES: set<CtState> := {New, Established, Related}
  const REPLY_STATES: set<CtState> := {Established, Related}

  function PublishedAddress(p: PortRule): seq<Match> {
    if p.sourceIP != 0 then [DstIn(Host(p.sourceIP))] else []
  }

  function IptPrefix(p: PortRule): seq<Match> {
    (if p.bridge != "" then [InIsNot(p.bridge)] else []) +
    [ProtoIs(p.proto)] + PublishedAddress(p) + [DportIs(p.sourcePort)]
  }

  function IptPrerouting(p: PortRule): seq<Rule> {
    [ Rule(IptPrefix(p), SetMark(4200), Continue),
      Rule(IptPrefix(p), KeepMark, Dnat(p.targetIP, p.targetPort)),
      Rule([ProtoIs(p.proto), DportIs(p.sourcePort)]
           + (if p.sourceIP == 0 then [DstType(Local)] else [DstIn(Host(p.sourceIP))]),
           KeepMark, Dnat(p.targetIP, p.targetPort)) ]
  }

  function IptOutput(p: PortRule): seq<Rule> {
    [ Rule([ProtoIs(p.proto), DportIs(p.sourcePort), DstType(Local)] + PublishedAddress(p),
           KeepMark, Dnat(p.targetIP, p.targetPort)) ]
  }

  function IptPostrouting(p: PortRule): seq<Rule> {
    [ Rule([SrcIn(Host(p.targetIP)), DstIn(Host(p.targetIP)), ProtoIs(p.proto), DportIs(p.targetPort)],
           KeepMark, Masquerade(false)),
      Rule([IsDnatted] + (if p.masqueradeDnat then [] else [SrcType(Local)])
           + [DstIn(Host(p.targetIP)), ProtoIs(p.proto), DportIs(p.targetPort)],
           KeepMark, Masquerade(false)) ]
  }

  function IptNetwork(n: Network): seq<Rule> {
    [ Rule([InIs(n.bridge), SrcIn(Subnet(n.subnet)), StateIn(ALL_STATES)], KeepMark, Accept),
      Rule([OutIs(n.bridge), DstIn(Subnet(n.subnet)), StateIn(REPLY_STATES)], KeepMark, Accept) ]
  }

  function IptShared(n: Network): seq<Rule> {
    [ Rule([OutIs(n.bridge), SrcIn(Subnet(n.subnet)), DstIn(Subnet(n.subnet)), StateIn(ALL_STATES)], KeepMark, Accept) ]
  }

  function IptPair(q: Pair): seq<Rule> {
    [ Rule([OutIs(q.bridge), SrcIn(Subnet(q.peer)), DstIn(Subnet(q.local))], KeepMark, Accept) ]
  }

  function IptTarget(p: PortRule): seq<Rule> {
    [ Rule([IsDnatted, DstIn(Host(p.targetIP)), ProtoIs(p.proto), DportIs(p.targetPort)], KeepMark, Accept) ]
  }

  const IPT_MARKS := [ Rule([MarkIs(PUBLISHED_MARK)], KeepMark, Accept), Rule([MarkIs(KUBERNETES_MARK)], KeepMark, Accept) ]

  function GuardRule(bridge: string): seq<Rule> {
    [ Rule([InIs(bridge), DstIn(LOOPBACK)], KeepMark, Drop) ]
  }

  function NftCondition(p: PortRule): seq<Match> {
    [DstType(Local)] + PublishedAddress(p) + [ProtoIs(p.proto), DportIs(p.sourcePort)]
  }

  function NftDeliver(p: PortRule, where: seq<Match>): Rule {
    Rule(NftCondition(p) + where, OrMark(PUBLISHED_MARK), Dnat(p.targetIP, p.targetPort))
  }

  function NftPrerouting(p: PortRule): seq<Rule> {
    if p.bridge != "" then [NftDeliver(p, [InIsNot(p.bridge)]), NftDeliver(p, [InIs(p.bridge)])]
    else [NftDeliver(p, [])]
  }

  function NftOutput(p: PortRule): seq<Rule> {
    [ Rule([DstType(Local)] + PublishedAddress(p) + [ProtoIs(p.proto), DportIs(p.sourcePort)],
           KeepMark, Dnat(p.targetIP, p.targetPort)) ]
  }

  function NftPostrouting(p: PortRule): seq<Rule> {
    (if p.bridge != "" then
       [ Rule([InIs(p.bridge), OutIs(p.bridge), DstIn(Host(p.targetIP)), ProtoIs(p.proto), DportIs(p.targetPort)],
              KeepMark, Masquerade(false)) ]
     else []) +
    [ Rule([SrcIn(Host(p.targetIP)), DstIn(Host(p.targetIP)), ProtoIs(p.proto), DportIs(p.targetPort)],
           KeepMark, Masquerade(false)),
      Rule((if p.masqueradeDnat then [] else [SrcType(Local)])
           + [IsDnatted, DstIn(Host(p.targetIP)), ProtoIs(p.proto), DportIs(p.targetPort)],
           KeepMark, Masquerade(false)) ]
  }

  function NftNetwork(n: Network): seq<Rule> {
    [ Rule([InIs(n.bridge), SrcIn(Subnet(n.subnet)), StateIn(ALL_STATES)], OrMark(PUBLISHED_MARK), Accept),
      Rule([OutIs(n.bridge), DstIn(Subnet(n.subnet)), StateIn(REPLY_STATES)], OrMark(PUBLISHED_MARK), Accept) ]
  }

  function NftShared(n: Network): seq<Rule> {
    [ Rule([OutIs(n.bridge), SrcIn(Subnet(n.subnet)), DstIn(Subnet(n.subnet)), StateIn(ALL_STATES)],
           OrMark(PUBLISHED_MARK), Accept) ]
  }

  function NftPair(q: Pair): seq<Rule> {
    [ Rule([OutIs(q.bridge), SrcIn(Subnet(q.peer)), DstIn(Subnet(q.local))], OrMark(PUBLISHED_MARK), Accept) ]
  }

  function NftTarget(p: PortRule): seq<Rule> {
    [ Rule([IsDnatted, DstIn(Host(p.targetIP)), ProtoIs(p.proto), DportIs(p.targetPort)],
           OrMark(PUBLISHED_MARK), Accept) ]
  }

  const NFT_MARKS := [ Rule([MarkHas(PUBLISHED_MARK, PUBLISHED_MARK)], KeepMark, Accept),
                      Rule([MarkIs(KUBERNETES_MARK)], KeepMark, Accept) ]

  // --- whole tables -------------------------------------------------------

  datatype IptTables = IptTables(
    raw: seq<Rule>, prerouting: seq<Rule>, output: seq<Rule>, postrouting: seq<Rule>, forward: seq<Rule>)

  datatype NftTable = NftTable(
    raw: seq<Rule>, prerouting: seq<Rule>, output: seq<Rule>, postrouting: seq<Rule>, forward: seq<Rule>)

  ghost function IptForward(rules: RuleSet): seq<Rule> {
    FlatMap(ForwardNetworks(rules), IptNetwork) + FlatMap(SharedNetworks(rules), IptShared) +
    FlatMap(ForwardPairs(rules), IptPair) + FlatMap(SortedPorts(rules), IptTarget) + IPT_MARKS
  }

  ghost function IptCompiled(rules: RuleSet): IptTables {
    IptTables(
      FlatMap(EnabledBridges(rules.routeLocalnet), GuardRule),
      FlatMap(SortedPorts(rules), IptPrerouting),
      FlatMap(SortedPorts(rules), IptOutput),
      FlatMap(SortedPorts(rules), IptPostrouting),
      IptForward(rules))
  }

  ghost function NftForward(rules: RuleSet): seq<Rule> {
    FlatMap(ForwardNetworks(rules), NftNetwork) + FlatMap(SharedNetworks(rules), NftShared) +
    FlatMap(ForwardPairs(rules), NftPair) + FlatMap(SortedPorts(rules), NftTarget) + NFT_MARKS
  }

  ghost function NftCompiled(rules: RuleSet): NftTable {
    NftTable(
      FlatMap(EnabledBridges(rules.routeLocalnet), GuardRule),
      FlatMap(SortedPorts(rules), NftPrerouting),
      FlatMap(SortedPorts(rules), NftOutput),
      FlatMap(SortedPorts(rules), NftPostrouting),
      NftForward(rules))
  }

  method CompileIptables(rules: RuleSet) returns (t: IptTables)
    ensures t == IptCompiled(rules)
  {
    var bridges := SortedEnabledBridges(rules.routeLocalnet);
    var raw := Emit([], bridges, GuardRule);
    var ports := CollectValues(rules.ports);
    var prerouting := Emit([], ports, IptPrerouting);
    var output := Emit([], ports, IptOutput);
    var postrouting := Emit([], ports, IptPostrouting);
    var networks := SortedForwardNetworks(rules);
    var forward := Emit([], networks, IptNetwork);
    var shared := SortedSharedIngressNetworks(rules);
    forward := Emit(forward, shared, IptShared);
    var pairs := SortedForwardPeers(rules);
    forward := Emit(forward, pairs, IptPair);
    forward := Emit(forward, ports, IptTarget);
    t := IptTables(raw, prerouting, output, postrouting, forward + IPT_MARKS);
  }

  method CompileNft(rules: RuleSet) returns (t: NftTable)
    ensures t == NftCompiled(rules)
  {
    var bridges := SortedEnabledBridges(rules.routeLocalnet);
    var raw := Emit([], bridges, GuardRule);
    var ports := CollectValues(rules.ports);
    var prerouting := Emit([], ports, NftPrerouting);
    var output := Emit([], ports, NftOutput);
    var postrouting := Emit([], ports, NftPostrouting);
    var networks := SortedForwardNetworks(rules);
    var forward := Emit([], networks, NftNetwork);
    var shared := SortedSharedIngressNetworks(rules);
    forward := Emit(forward, shared, NftShared);
    var pairs := SortedForwardPeers(rules);
    forward := Emit(forward, pairs, NftPair);
    forward := Emit(forward, ports, NftTarget);
    t := NftTable(raw, prerouting, output, postrouting, forward + NFT_MARKS);
  }

  // --- validation, in full ---------------------------------------------------

  predicate BridgeCharacter(c: char) {
    'a' <= c <= 'z' || 'A' <= c <= 'Z' || '0' <= c <= '9' || c == '_' || c == '-' || c == '.'
  }

  predicate BridgeName(name: string) {
    1 <= |name| && |name| <= 15 && forall i :: 0 <= i < |name| ==> BridgeCharacter(name[i])
  }

  predicate Narrow(text: string) { ParsePrefix4(text).Some? && ParsePrefix4(text).value.bits != 0 }

  predicate Complete(rules: RuleSet, u: string) {
    u in rules.forwardSubnets && rules.forwardSubnets[u] != "" && u in rules.forwardBridges && rules.forwardBridges[u] != ""
  }

  predicate PortInFull(p: PortRule) {
    (p.bridge != "" ==> BridgeName(p.bridge)) && 1 <= p.sourcePort <= 65535 && 1 <= p.targetPort <= 65535 &&
    p.proto in {Tcp, Udp}
  }

  predicate PortsInFull(rules: RuleSet) {
    forall k :: k in rules.ports ==> PortInFull(rules.ports[k])
  }

  predicate NetworkInFull(rules: RuleSet, u: string)
    requires u in rules.forwardSubnets
  {
    Narrow(rules.forwardSubnets[u]) && u in rules.forwardBridges && BridgeName(rules.forwardBridges[u])
  }

  predicate NetworksInFull(rules: RuleSet) {
    (forall u :: u in rules.forwardSubnets ==> NetworkInFull(rules, u)) &&
    (forall u :: u in rules.forwardBridges ==> u in rules.forwardSubnets && rules.forwardSubnets[u] != "") &&
    (forall u :: u in rules.sharedIngress && rules.sharedIngress[u] ==> Complete(rules, u))
  }

  predicate PeersInFull(rules: RuleSet) {
    (forall u :: u in rules.forwardPeers ==> Complete(rules, u)) &&
    (forall u, i :: u in rules.forwardPeers && 0 <= i < |rules.forwardPeers[u]| ==> Narrow(rules.forwardPeers[u][i]))
  }

  predicate LocalnetInFull(rules: RuleSet) {
    forall b :: b in rules.routeLocalnet ==> BridgeName(b)
  }

  lemma SameBridgeName(name: string)
    ensures ValidBridgeName(name) <==> BridgeName(name)
  {
    forall c: char ensures c in "_-." <==> c == '_' || c == '-' || c == '.' {}
  }

  lemma SamePort(p: PortRule)
    ensures ValidPortRule(p) <==> PortInFull(p)
  {
    SameBridgeName(p.bridge);
  }

  lemma SameNetwork(rules: RuleSet, u: string)
    requires u in rules.forwardSubnets
    ensures ValidSubnet(rules.forwardSubnets[u]) && ValidBridgeName(Text(rules.forwardBridges, u)) <==> NetworkInFull(rules, u)
  {
    SameBridgeName(Text(rules.forwardBridges, u));
  }

  lemma PortsAreChecked(rules: RuleSet)
    ensures (forall k :: k in rules.ports ==> ValidPortRule(rules.ports[k])) <==> PortsInFull(rules)
  {
    forall k | k in rules.ports ensures ValidPortRule(rules.ports[k]) <==> PortInFull(rules.ports[k]) {
      SamePort(rules.ports[k]);
    }
  }

  lemma LocalnetIsChecked(rules: RuleSet)
    ensures (forall b :: b in rules.routeLocalnet ==> ValidBridgeName(b)) <==> LocalnetInFull(rules)
  {
    forall b: string ensures ValidBridgeName(b) <==> BridgeName(b) { SameBridgeName(b); }
  }

  predicate SubnetsAccepted(rules: RuleSet) {
    forall u :: u in rules.forwardSubnets ==>
      ValidSubnet(rules.forwardSubnets[u]) && ValidBridgeName(Text(rules.forwardBridges, u))
  }

  lemma SubnetsAreChecked(rules: RuleSet)
    ensures SubnetsAccepted(rules) <==> forall u :: u in rules.forwardSubnets ==> NetworkInFull(rules, u)
  {
    forall u | u in rules.forwardSubnets
      ensures ValidSubnet(rules.forwardSubnets[u]) && ValidBridgeName(Text(rules.forwardBridges, u)) <==> NetworkInFull(rules, u)
    {
      SameNetwork(rules, u);
    }
  }

  predicate SharedAccepted(rules: RuleSet) {
    (forall u :: u in rules.forwardBridges ==> Text(rules.forwardSubnets, u) != "") &&
    (forall u :: u in rules.sharedIngress && rules.sharedIngress[u] ==> Managed(rules, u))
  }

  lemma NetworksAreChecked(rules: RuleSet)
    ensures SubnetsAccepted(rules) && SharedAccepted(rules) <==> NetworksInFull(rules)
  {
    SubnetsAreChecked(rules);
  }

  predicate PeersAccepted(rules: RuleSet) {
    forall u :: u in rules.forwardPeers ==>
      Managed(rules, u) &&
      forall i :: 0 <= i < |rules.forwardPeers[u]| ==> ValidSubnet(rules.forwardPeers[u][i])
  }

  lemma PeersAreChecked(rules: RuleSet)
    ensures PeersAccepted(rules) <==> PeersInFull(rules)
  {
    if PeersInFull(rules) {
      forall u, i | u in rules.forwardPeers && 0 <= i < |rules.forwardPeers[u]|
        ensures ValidSubnet(rules.forwardPeers[u][i])
      {
        assert Narrow(rules.forwardPeers[u][i]);
      }
    }
  }

  /** What the rule set must satisfy before anything is touched. */
  lemma ValidRuleSetExactly(rules: RuleSet)
    ensures ValidRuleSet(rules) <==>
      PortsInFull(rules) && NetworksInFull(rules) && PeersInFull(rules) && LocalnetInFull(rules)
  {
    PortsAreChecked(rules);
    NetworksAreChecked(rules);
    PeersAreChecked(rules);
    LocalnetIsChecked(rules);
    ValidInParts(rules);
  }

  lemma ValidInParts(rules: RuleSet)
    ensures ValidRuleSet(rules) <==>
      (forall k :: k in rules.ports ==> ValidPortRule(rules.ports[k])) &&
      SubnetsAccepted(rules) && SharedAccepted(rules) && PeersAccepted(rules) &&
      (forall b :: b in rules.routeLocalnet ==> ValidBridgeName(b))
  {
  }
}
