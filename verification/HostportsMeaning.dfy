/** What the two hostport backends do to a packet, compared with each other and
    with a description that mentions neither. */
module HostportsMeaning {
  import opened StringOrder
  import opened Wrappers
  import opened Cidr
  import opened Lists
  import opened Netfilter
  import opened HostportsRules

  // --- destination translation --------------------------------------------

  /** The packet is addressed to this published port. */
  predicate Serves(port: PortRule, p: Packet) {
    p.proto == port.proto && p.dport == port.sourcePort && (port.sourceIP == 0 || p.dst == port.sourceIP)
  }

  /** The port a packet to a local address is delivered to: the first in key order. */
  ghost function Target(rules: RuleSet, p: Packet): Option<PortRule> {
    First(SortedPorts(rules), port => Serves(port, p))
  }

  /** The nat PREROUTING hook: the base jump admits only local destinations. */
  ghost function IptPreroutingHook(rules: RuleSet, p: Packet, fib: Fib): Outcome {
    if fib(p.dst) == Local then Run(IptCompiled(rules).prerouting, p, fib) else Outcome(Continue, p.mark)
  }

  ghost function IptOutputHook(rules: RuleSet, p: Packet, fib: Fib): Outcome {
    if fib(p.dst) == Local then Run(IptCompiled(rules).output, p, fib) else Outcome(Continue, p.mark)
  }

  lemma HostBlock(a: Address, b: Address)
    ensures Contains(Host(a), b) <==> a == b
  {
    assert Block(32) == 1;
  }

  lemma PublishedMeaning(port: PortRule, p: Packet, fib: Fib)
    ensures All(PublishedAddress(port), p, fib) <==> port.sourceIP == 0 || p.dst == port.sourceIP
  {
    HostBlock(port.sourceIP, p.dst);
    AllOne(DstIn(Host(port.sourceIP)), p, fib);
  }

  predicate Entering(port: PortRule, p: Packet) {
    port.bridge == "" || p.inIf != port.bridge
  }

  lemma PrefixMeaning(port: PortRule, p: Packet, fib: Fib)
    ensures All(IptPrefix(port), p, fib) <==> Serves(port, p) && Entering(port, p)
  {
    var bridge := if port.bridge != "" then [InIsNot(port.bridge)] else [];
    PublishedMeaning(port, p, fib);
    AllConcat(bridge, [ProtoIs(port.proto)], p, fib);
    AllConcat(bridge + [ProtoIs(port.proto)], PublishedAddress(port), p, fib);
    AllConcat(bridge + [ProtoIs(port.proto)] + PublishedAddress(port), [DportIs(port.sourcePort)], p, fib);
    AllOne(InIsNot(port.bridge), p, fib);
    AllOne(ProtoIs(port.proto), p, fib);
    AllOne(DportIs(port.sourcePort), p, fib);
  }

  lemma LocalMeaning(port: PortRule, p: Packet, fib: Fib)
    requires fib(p.dst) == Local
    ensures Matches(IptPrerouting(port)[2], p, fib) <==> Serves(port, p)
  {
    HostBlock(port.sourceIP, p.dst);
    var address := if port.sourceIP == 0 then [DstType(Local)] else [DstIn(Host(port.sourceIP))];
    AllTwo(ProtoIs(port.proto), DportIs(port.sourcePort), p, fib);
    AllConcat([ProtoIs(port.proto), DportIs(port.sourcePort)], address, p, fib);
    AllOne(DstType(Local), p, fib);
    AllOne(DstIn(Host(port.sourceIP)), p, fib);
  }

  function IptDelivery(port: PortRule, p: Packet): Outcome {
    Outcome(Dnat(port.targetIP, port.targetPort), if Entering(port, p) then PUBLISHED_MARK else p.mark)
  }

  lemma IptPortRules(port: PortRule, p: Packet, fib: Fib)
    requires fib(p.dst) == Local
    ensures Run(IptPrerouting(port), p, fib)
         == if Serves(port, p) then IptDelivery(port, p) else Outcome(Continue, p.mark)
  {
    var rs := IptPrerouting(port);
    var q := p.(mark := Step(rs[0], p, fib).mark);
    assert rs == [rs[0]] + ([rs[1]] + [rs[2]]);
    RunCons(rs[0], [rs[1]] + [rs[2]], p, fib);
    RunCons(rs[1], [rs[2]], q, fib);
    RunSingle(rs[2], q, fib);
    PrefixMeaning(port, p, fib);
    PrefixMeaning(port, q, fib);
    LocalMeaning(port, q, fib);
  }

  lemma NftConditionMeaning(port: PortRule, p: Packet, fib: Fib)
    ensures All(NftCondition(port), p, fib) <==> Serves(port, p) && fib(p.dst) == Local
  {
    PublishedMeaning(port, p, fib);
    AllTwo(ProtoIs(port.proto), DportIs(port.sourcePort), p, fib);
    AllConcat([DstType(Local)], PublishedAddress(port), p, fib);
    AllConcat([DstType(Local)] + PublishedAddress(port), [ProtoIs(port.proto), DportIs(port.sourcePort)], p, fib);
    AllOne(DstType(Local), p, fib);
  }

  function NftDelivery(port: PortRule, p: Packet): Outcome {
    Outcome(Dnat(port.targetIP, port.targetPort), p.mark | PUBLISHED_MARK)
  }

  lemma NftDeliverMeaning(port: PortRule, where: seq<Match>, p: Packet, fib: Fib)
    ensures Matches(NftDeliver(port, where), p, fib)
       <==> Serves(port, p) && fib(p.dst) == Local && All(where, p, fib)
    ensures Matches(NftDeliver(port, where), p, fib) ==> Step(NftDeliver(port, where), p, fib) == NftDelivery(port, p)
    ensures !Matches(NftDeliver(port, where), p, fib) ==>
      Step(NftDeliver(port, where), p, fib) == Outcome(Continue, p.mark)
  {
    NftConditionMeaning(port, p, fib);
    AllConcat(NftCondition(port), where, p, fib);
  }

  lemma NftPortRules(port: PortRule, p: Packet, fib: Fib)
    ensures Run(NftPrerouting(port), p, fib)
         == if Serves(port, p) && fib(p.dst) == Local then NftDelivery(port, p) else Outcome(Continue, p.mark)
  {
    if port.bridge != "" {
      NftBridged(port, p, fib);
    } else {
      NftDeliverMeaning(port, [], p, fib);
      RunSingle(NftDeliver(port, []), p, fib);
    }
  }

  lemma NftBridged(port: PortRule, p: Packet, fib: Fib)
    ensures Run([NftDeliver(port, [InIsNot(port.bridge)]), NftDeliver(port, [InIs(port.bridge)])], p, fib)
         == if Serves(port, p) && fib(p.dst) == Local then NftDelivery(port, p) else Outcome(Continue, p.mark)
  {
    var away, own := NftDeliver(port, [InIsNot(port.bridge)]), NftDeliver(port, [InIs(port.bridge)]);
    AllOne(InIsNot(port.bridge), p, fib);
    AllOne(InIs(port.bridge), p, fib);
    NftDeliverMeaning(port, [InIsNot(port.bridge)], p, fib);
    NftDeliverMeaning(port, [InIs(port.bridge)], p, fib);
    RunTwo(away, own, p, fib);
  }

  /** Both backends deliver a published packet to the same container: the first
      port in key order that serves it. They differ only in the mark, which nft
      adds to and iptables overwrites, and only off the port's own bridge. */
  lemma PreroutingAgreement(rules: RuleSet, p: Packet, fib: Fib)
    ensures var ipt, nft := IptPreroutingHook(rules, p, fib), Run(NftCompiled(rules).prerouting, p, fib);
      if fib(p.dst) != Local || Target(rules, p).None? then ipt == nft == Outcome(Continue, p.mark)
      else ipt == IptDelivery(Target(rules, p).value, p) && nft == NftDelivery(Target(rules, p).value, p)
  {
    var ports := SortedPorts(rules);
    var serves := port => Serves(port, p);
    var nftServes := port => Serves(port, p) && fib(p.dst) == Local;
    forall port ensures Run(NftPrerouting(port), p, fib)
         == if nftServes(port) then NftDelivery(port, p) else Outcome(Continue, p.mark) {
      NftPortRules(port, p, fib);
    }
    RunPicksFirst(ports, NftPrerouting, nftServes, port => NftDelivery(port, p), p, fib);
    if fib(p.dst) == Local {
      forall port ensures Run(IptPrerouting(port), p, fib)
           == if serves(port) then IptDelivery(port, p) else Outcome(Continue, p.mark) {
        IptPortRules(port, p, fib);
      }
      RunPicksFirst(ports, IptPrerouting, serves, port => IptDelivery(port, p), p, fib);
      FirstSame(ports, serves, nftServes);
    }
  }

  lemma {:induction false} FirstSame<A(!new)>(xs: seq<A>, f: A -> bool, g: A -> bool)
    requires forall x :: f(x) == g(x)
    ensures First(xs, f) == First(xs, g)
  {
    if xs != [] { FirstSame(xs[..|xs| - 1], f, g); }
  }

  /** Locally generated traffic is redirected identically, marks included. */
  lemma OutputAgreement(rules: RuleSet, p: Packet, fib: Fib)
    ensures var ipt, nft := IptOutputHook(rules, p, fib), Run(NftCompiled(rules).output, p, fib);
      ipt == nft ==
        if fib(p.dst) != Local || Target(rules, p).None? then Outcome(Continue, p.mark)
        else Outcome(Dnat(Target(rules, p).value.targetIP, Target(rules, p).value.targetPort), p.mark)
  {
    var ports := SortedPorts(rules);
    var serves := port => Serves(port, p);
    var sel := port => Serves(port, p) && fib(p.dst) == Local;
    var out := (port: PortRule) => Outcome(Dnat(port.targetIP, port.targetPort), p.mark);
    forall port
      ensures Run(IptOutput(port), p, fib) == if sel(port) then out(port) else Outcome(Continue, p.mark)
      ensures Run(NftOutput(port), p, fib) == if sel(port) then out(port) else Outcome(Continue, p.mark)
    {
      OutputRules(port, p, fib);
    }
    RunPicksFirst(ports, IptOutput, sel, out, p, fib);
    RunPicksFirst(ports, NftOutput, sel, out, p, fib);
    if fib(p.dst) == Local { FirstSame(ports, serves, sel); }
  }

  lemma OutputRules(port: PortRule, p: Packet, fib: Fib)
    ensures Run(IptOutput(port), p, fib) == Run(NftOutput(port), p, fib)
         == if Serves(port, p) && fib(p.dst) == Local
            then Outcome(Dnat(port.targetIP, port.targetPort), p.mark) else Outcome(Continue, p.mark)
  {
    NftConditionMeaning(port, p, fib);
    PublishedMeaning(port, p, fib);
    AllThree(ProtoIs(port.proto), DportIs(port.sourcePort), DstType(Local), p, fib);
    AllConcat([ProtoIs(port.proto), DportIs(port.sourcePort), DstType(Local)], PublishedAddress(port), p, fib);
    RunSingle(IptOutput(port)[0], p, fib);
    RunSingle(NftOutput(port)[0], p, fib);
    assert NftOutput(port)[0].matches == NftCondition(port);
  }

  // --- source translation --------------------------------------------------

  predicate ToTarget(port: PortRule, p: Packet) {
    p.dst == port.targetIP && p.proto == port.proto && p.dport == port.targetPort
  }

  /** A published flow whose reply must come back through this host. */
  predicate NeedsMasquerade(port: PortRule, p: Packet, fib: Fib) {
    ToTarget(port, p) &&
    (p.src == port.targetIP || (p.dnatted && (port.masqueradeDnat || fib(p.src) == Local)))
  }

  /** Traffic entering and leaving the port's own bridge toward its target. */
  predicate Hairpin(port: PortRule, p: Packet) {
    port.bridge != "" && p.inIf == port.bridge && p.outIf == port.bridge && ToTarget(port, p)
  }

  function Masqueraded(yes: bool, p: Packet): Outcome {
    Outcome(if yes then Masquerade(false) else Continue, p.mark)
  }

  function TargetMatches(port: PortRule): seq<Match> {
    [DstIn(Host(port.targetIP)), ProtoIs(port.proto), DportIs(port.targetPort)]
  }

  lemma TargetMeaning(port: PortRule, p: Packet, fib: Fib)
    ensures All(TargetMatches(port), p, fib) <==> ToTarget(port, p)
  {
    HostBlock(port.targetIP, p.dst);
    AllThree(DstIn(Host(port.targetIP)), ProtoIs(port.proto), DportIs(port.targetPort), p, fib);
  }

  predicate FromSelf(port: PortRule, p: Packet) { p.src == port.targetIP && ToTarget(port, p) }

  predicate Redirected(port: PortRule, p: Packet, fib: Fib) {
    p.dnatted && (port.masqueradeDnat || fib(p.src) == Local) && ToTarget(port, p)
  }

  lemma SelfMeaning(port: PortRule, p: Packet, fib: Fib)
    ensures All([SrcIn(Host(port.targetIP))] + TargetMatches(port), p, fib) <==> FromSelf(port, p)
  {
    HostBlock(port.targetIP, p.src);
    TargetMeaning(port, p, fib);
    AllOne(SrcIn(Host(port.targetIP)), p, fib);
    AllConcat([SrcIn(Host(port.targetIP))], TargetMatches(port), p, fib);
  }

  function LocalUnlessFlat(port: PortRule): seq<Match> {
    if port.masqueradeDnat then [] else [SrcType(Local)]
  }

  lemma RedirectedMeaning(port: PortRule, p: Packet, fib: Fib)
    ensures All([IsDnatted] + LocalUnlessFlat(port) + TargetMatches(port), p, fib) <==> Redirected(port, p, fib)
    ensures All(LocalUnlessFlat(port) + [IsDnatted] + TargetMatches(port), p, fib) <==> Redirected(port, p, fib)
  {
    TargetMeaning(port, p, fib);
    AllOne(SrcType(Local), p, fib);
    AllOne(IsDnatted, p, fib);
    AllConcat([IsDnatted], LocalUnlessFlat(port), p, fib);
    AllConcat([IsDnatted] + LocalUnlessFlat(port), TargetMatches(port), p, fib);
    AllConcat(LocalUnlessFlat(port), [IsDnatted], p, fib);
    AllConcat(LocalUnlessFlat(port) + [IsDnatted], TargetMatches(port), p, fib);
  }

  lemma HairpinMeaning(port: PortRule, p: Packet, fib: Fib)
    requires port.bridge != ""
    ensures All([InIs(port.bridge), OutIs(port.bridge)] + TargetMatches(port), p, fib) <==> Hairpin(port, p)
  {
    TargetMeaning(port, p, fib);
    AllTwo(InIs(port.bridge), OutIs(port.bridge), p, fib);
    AllConcat([InIs(port.bridge), OutIs(port.bridge)], TargetMatches(port), p, fib);
  }

  lemma IptPostroutingRules(port: PortRule, p: Packet, fib: Fib)
    ensures Admits(IptPostrouting(port), p, fib) <==> NeedsMasquerade(port, p, fib)
  {
    var rs := IptPostrouting(port);
    SelfMeaning(port, p, fib);
    RedirectedMeaning(port, p, fib);
    assert rs[0].matches == [SrcIn(Host(port.targetIP))] + TargetMatches(port);
    assert rs[1].matches == [IsDnatted] + LocalUnlessFlat(port) + TargetMatches(port);
    AdmitsTwo(rs[0], rs[1], p, fib);
  }

  lemma NftPostroutingRules(port: PortRule, p: Packet, fib: Fib)
    ensures Admits(NftPostrouting(port), p, fib) <==> NeedsMasquerade(port, p, fib) || Hairpin(port, p)
  {
    var rs := NftPostrouting(port);
    var hairpin := rs[..|rs| - 2];
    var a, b := rs[|rs| - 2], rs[|rs| - 1];
    SelfMeaning(port, p, fib);
    RedirectedMeaning(port, p, fib);
    assert a.matches == [SrcIn(Host(port.targetIP))] + TargetMatches(port);
    assert b.matches == LocalUnlessFlat(port) + [IsDnatted] + TargetMatches(port);
    AdmitsTwo(a, b, p, fib);
    AdmitsConcat(hairpin, [a, b], p, fib);
    assert rs == hairpin + [a, b];
    if port.bridge != "" {
      HairpinMeaning(port, p, fib);
      assert hairpin == [rs[0]];
      assert rs[0].matches == [InIs(port.bridge), OutIs(port.bridge)] + TargetMatches(port);
      AdmitsOne(rs[0], p, fib);
    } else {
      assert hairpin == [];
    }
  }

  /** Every rule of a postrouting chain masquerades, so only admission matters. */
  lemma {:induction false} MasqueradeChain(ports: seq<PortRule>, f: PortRule -> seq<Rule>, p: Packet, fib: Fib)
    requires forall port :: Uniform(f(port), KeepMark, Masquerade(false))
    ensures Run(FlatMap(ports, f), p, fib) == Masqueraded(exists i :: 0 <= i < |ports| && Admits(f(ports[i]), p, fib), p)
  {
    UniformFlatMap(ports, f, KeepMark, Masquerade(false));
    RunUniform(FlatMap(ports, f), KeepMark, Masquerade(false), p, fib);
    AdmitsFlatMap(ports, f, p, fib);
  }

  lemma AdmitsOne(r: Rule, p: Packet, fib: Fib)
    ensures Admits([r], p, fib) <==> Matches(r, p, fib)
  {
    assert [r][0] == r;
  }

  lemma AdmitsTwo(a: Rule, b: Rule, p: Packet, fib: Fib)
    ensures Admits([a, b], p, fib) <==> Matches(a, p, fib) || Matches(b, p, fib)
  {
    assert [a, b][0] == a && [a, b][1] == b;
  }

  /** nft masquerades exactly what iptables masquerades, plus hairpin traffic on
      a port's own bridge. */
  lemma PostroutingAgreement(rules: RuleSet, p: Packet, fib: Fib)
    ensures Run(IptCompiled(rules).postrouting, p, fib)
         == Masqueraded(exists k :: k in rules.ports && NeedsMasquerade(rules.ports[k], p, fib), p)
    ensures Run(NftCompiled(rules).postrouting, p, fib)
         == Masqueraded(exists k :: k in rules.ports && (NeedsMasquerade(rules.ports[k], p, fib) || Hairpin(rules.ports[k], p)), p)
  {
    var ports := SortedPorts(rules);
    var plain := (port: PortRule) => NeedsMasquerade(port, p, fib);
    var more := (port: PortRule) => NeedsMasquerade(port, p, fib) || Hairpin(port, p);
    MasqueradeChain(ports, IptPostrouting, p, fib);
    MasqueradeChain(ports, NftPostrouting, p, fib);
    forall i | 0 <= i < |ports|
      ensures Admits(IptPostrouting(ports[i]), p, fib) == plain(ports[i])
      ensures Admits(NftPostrouting(ports[i]), p, fib) == more(ports[i])
    {
      IptPostroutingRules(ports[i], p, fib);
      NftPostroutingRules(ports[i], p, fib);
    }
    ValuesExact(rules.ports, plain);
    ValuesExact(rules.ports, more);
  }

  // --- forwarding ------------------------------------------------------------

  predicate NetworkFlow(bridge: string, subnet: string, p: Packet) {
    (p.inIf == bridge && Contains(Subnet(subnet), p.src) && p.state in {New, Established, Related}) ||
    (p.outIf == bridge && Contains(Subnet(subnet), p.dst) && p.state in {Established, Related})
  }

  predicate SharedFlow(bridge: string, subnet: string, p: Packet) {
    p.outIf == bridge && Contains(Subnet(subnet), p.src) && Contains(Subnet(subnet), p.dst) && p.state in {New, Established, Related}
  }

  predicate PeerFlow(q: Pair, p: Packet) {
    p.outIf == q.bridge && Contains(Subnet(q.peer), p.src) && Contains(Subnet(q.local), p.dst)
  }

  predicate PublishedFlow(port: PortRule, p: Packet) { p.dnatted && ToTarget(port, p) }

  /** No smaller UUID claims the same bridge and subnet. Only such a network's
      shared-ingress flag is consulted. */
  ghost predicate Representative(rules: RuleSet, uuid: string) {
    forall v :: v in rules.forwardSubnets && SameIdentity(NetworkAt(rules, v), NetworkAt(rules, uuid)) ==> Leq(uuid, v)
  }

  ghost predicate ManagedFlow(rules: RuleSet, p: Packet) {
    exists u :: u in rules.forwardSubnets && u in rules.forwardBridges &&
      rules.forwardSubnets[u] != "" && rules.forwardBridges[u] != "" &&
      NetworkFlow(rules.forwardBridges[u], rules.forwardSubnets[u], p)
  }

  ghost predicate SharedIngressFlow(rules: RuleSet, p: Packet) {
    exists u :: u in rules.forwardSubnets && u in rules.forwardBridges && u in rules.sharedIngress &&
      rules.forwardSubnets[u] != "" && rules.forwardBridges[u] != "" && rules.sharedIngress[u] && Representative(rules, u) &&
      SharedFlow(rules.forwardBridges[u], rules.forwardSubnets[u], p)
  }

  ghost predicate PeerIngressFlow(rules: RuleSet, p: Packet) {
    exists u, q :: PairOf(rules, u, q) && PeerFlow(q, p)
  }

  ghost predicate PublishedIngressFlow(rules: RuleSet, p: Packet) {
    exists k :: k in rules.ports && PublishedFlow(rules.ports[k], p)
  }

  /** Traffic the rule set asks to forward, in terms of the metadata alone. */
  ghost predicate Forwardable(rules: RuleSet, p: Packet) {
    ManagedFlow(rules, p) || SharedIngressFlow(rules, p) || PeerIngressFlow(rules, p) || PublishedIngressFlow(rules, p)
  }

  predicate HasPublishedMark(mark: bv32) { mark & PUBLISHED_MARK == PUBLISHED_MARK }

  lemma NetworkRules(n: Network, p: Packet, fib: Fib)
    ensures Admits(IptNetwork(n), p, fib) == Admits(NftNetwork(n), p, fib) == NetworkFlow(n.bridge, n.subnet, p)
  {
    AllThree(InIs(n.bridge), SrcIn(Subnet(n.subnet)), StateIn(ALL_STATES), p, fib);
    AllThree(OutIs(n.bridge), DstIn(Subnet(n.subnet)), StateIn(REPLY_STATES), p, fib);
    AdmitsTwo(IptNetwork(n)[0], IptNetwork(n)[1], p, fib);
    AdmitsTwo(NftNetwork(n)[0], NftNetwork(n)[1], p, fib);
  }

  lemma SharedRules(n: Network, p: Packet, fib: Fib)
    ensures Admits(IptShared(n), p, fib) == Admits(NftShared(n), p, fib) == SharedFlow(n.bridge, n.subnet, p)
  {
    AllFour(OutIs(n.bridge), SrcIn(Subnet(n.subnet)), DstIn(Subnet(n.subnet)), StateIn(ALL_STATES), p, fib);
    AdmitsOne(IptShared(n)[0], p, fib);
    AdmitsOne(NftShared(n)[0], p, fib);
  }

  lemma PairRules(q: Pair, p: Packet, fib: Fib)
    ensures Admits(IptPair(q), p, fib) == Admits(NftPair(q), p, fib) == PeerFlow(q, p)
  {
    AllThree(OutIs(q.bridge), SrcIn(Subnet(q.peer)), DstIn(Subnet(q.local)), p, fib);
    AdmitsOne(IptPair(q)[0], p, fib);
    AdmitsOne(NftPair(q)[0], p, fib);
  }

  lemma TargetRules(port: PortRule, p: Packet, fib: Fib)
    ensures Admits(IptTarget(port), p, fib) == Admits(NftTarget(port), p, fib) == PublishedFlow(port, p)
  {
    TargetMeaning(port, p, fib);
    AllOne(IsDnatted, p, fib);
    AllConcat([IsDnatted], TargetMatches(port), p, fib);
    assert IptTarget(port)[0].matches == [IsDnatted] + TargetMatches(port);
    assert NftTarget(port)[0].matches == [IsDnatted] + TargetMatches(port);
    AdmitsOne(IptTarget(port)[0], p, fib);
    AdmitsOne(NftTarget(port)[0], p, fib);
  }

  /** What the deduplicated list contains, in terms of the rule set's UUIDs. */
  lemma ForwardNetworksExact(rules: RuleSet)
    ensures forall n :: n in ForwardNetworks(rules) ==>
      n.uuid in rules.forwardSubnets && n == NetworkAt(rules, n.uuid) && Managed(rules, n.uuid) && Representative(rules, n.uuid)
    ensures forall u :: u in rules.forwardSubnets && Managed(rules, u) ==> Listed(ForwardNetworks(rules), NetworkAt(rules, u))
  {
    var keys := SortedKeys(rules.forwardSubnets.Keys);
    SortedKeysSorted(rules.forwardSubnets.Keys);
    NetworksExact(rules, keys);
    forall k ensures k in keys <==> k in rules.forwardSubnets { EveryKeyListed(rules.forwardSubnets.Keys, k); }
  }

  lemma ManagedIsListed(rules: RuleSet, p: Packet)
    ensures (exists i :: 0 <= i < |ForwardNetworks(rules)| &&
              NetworkFlow(ForwardNetworks(rules)[i].bridge, ForwardNetworks(rules)[i].subnet, p))
       <==> ManagedFlow(rules, p)
  {
    var networks := ForwardNetworks(rules);
    ForwardNetworksExact(rules);
    if i :| 0 <= i < |networks| && NetworkFlow(networks[i].bridge, networks[i].subnet, p) {
      assert networks[i] in networks;
      assert ManagedFlow(rules, p);
    }
    if ManagedFlow(rules, p) {
      var u :| u in rules.forwardSubnets && u in rules.forwardBridges &&
            rules.forwardSubnets[u] != "" && rules.forwardBridges[u] != "" &&
            NetworkFlow(rules.forwardBridges[u], rules.forwardSubnets[u], p);
      assert Managed(rules, u);
      var i :| 0 <= i < |networks| && SameIdentity(networks[i], NetworkAt(rules, u));
      assert NetworkFlow(networks[i].bridge, networks[i].subnet, p);
    }
  }

  lemma NetworksAdmit(rules: RuleSet, p: Packet, fib: Fib)
    ensures Admits(FlatMap(ForwardNetworks(rules), IptNetwork), p, fib)
         == Admits(FlatMap(ForwardNetworks(rules), NftNetwork), p, fib) == ManagedFlow(rules, p)
  {
    var networks := ForwardNetworks(rules);
    AdmitsFlatMap(networks, IptNetwork, p, fib);
    AdmitsFlatMap(networks, NftNetwork, p, fib);
    forall i | 0 <= i < |networks| ensures Admits(IptNetwork(networks[i]), p, fib) == Admits(NftNetwork(networks[i]), p, fib)
        == NetworkFlow(networks[i].bridge, networks[i].subnet, p) {
      NetworkRules(networks[i], p, fib);
    }
    ManagedIsListed(rules, p);
  }

  lemma SharedIsListed(rules: RuleSet, p: Packet)
    ensures (exists i :: 0 <= i < |SharedNetworks(rules)| &&
              SharedFlow(SharedNetworks(rules)[i].bridge, SharedNetworks(rules)[i].subnet, p))
       <==> SharedIngressFlow(rules, p)
  {
    var shared, networks := SharedNetworks(rules), ForwardNetworks(rules);
    ForwardNetworksExact(rules);
    SharedExact(rules, networks);
    if i :| 0 <= i < |shared| && SharedFlow(shared[i].bridge, shared[i].subnet, p) {
      assert shared[i] in shared;
      assert SharedIngressFlow(rules, p);
    }
    if SharedIngressFlow(rules, p) {
      var u :| u in rules.forwardSubnets && u in rules.forwardBridges && u in rules.sharedIngress &&
            rules.forwardSubnets[u] != "" && rules.forwardBridges[u] != "" && rules.sharedIngress[u] && Representative(rules, u) &&
            SharedFlow(rules.forwardBridges[u], rules.forwardSubnets[u], p);
      assert Managed(rules, u);
      var j :| 0 <= j < |networks| && SameIdentity(networks[j], NetworkAt(rules, u));
      var n := networks[j];
      assert n in networks;
      assert Leq(n.uuid, u) && Leq(u, n.uuid);
      if u != n.uuid { LessAsymmetric(u, n.uuid); }
      assert n in shared;
    }
  }

  lemma SharedAdmit(rules: RuleSet, p: Packet, fib: Fib)
    ensures Admits(FlatMap(SharedNetworks(rules), IptShared), p, fib)
         == Admits(FlatMap(SharedNetworks(rules), NftShared), p, fib) == SharedIngressFlow(rules, p)
  {
    var shared := SharedNetworks(rules);
    AdmitsFlatMap(shared, IptShared, p, fib);
    AdmitsFlatMap(shared, NftShared, p, fib);
    forall i | 0 <= i < |shared| ensures Admits(IptShared(shared[i]), p, fib) == Admits(NftShared(shared[i]), p, fib)
        == SharedFlow(shared[i].bridge, shared[i].subnet, p) {
      SharedRules(shared[i], p, fib);
    }
    SharedIsListed(rules, p);
  }

  lemma PairsAdmit(rules: RuleSet, p: Packet, fib: Fib)
    ensures Admits(FlatMap(ForwardPairs(rules), IptPair), p, fib)
         == Admits(FlatMap(ForwardPairs(rules), NftPair), p, fib) == PeerIngressFlow(rules, p)
  {
    var pairs, keys := ForwardPairs(rules), SortedKeys(rules.forwardPeers.Keys);
    OnlyKeysListed(rules.forwardPeers.Keys);
    AdmitsFlatMap(pairs, IptPair, p, fib);
    AdmitsFlatMap(pairs, NftPair, p, fib);
    forall i | 0 <= i < |pairs| ensures Admits(IptPair(pairs[i]), p, fib) == Admits(NftPair(pairs[i]), p, fib) == PeerFlow(pairs[i], p) {
      PairRules(pairs[i], p, fib);
    }
    if i :| 0 <= i < |pairs| && PeerFlow(pairs[i], p) {
      PairsExact(rules, keys, pairs[i]);
      assert PeerIngressFlow(rules, p);
    }
    if u, q :| PairOf(rules, u, q) && PeerFlow(q, p) {
      EveryKeyListed(rules.forwardPeers.Keys, u);
      PairsExact(rules, keys, q);
      assert q in pairs;
    }
  }

  lemma TargetsAdmit(rules: RuleSet, p: Packet, fib: Fib)
    ensures Admits(FlatMap(SortedPorts(rules), IptTarget), p, fib)
         == Admits(FlatMap(SortedPorts(rules), NftTarget), p, fib) == PublishedIngressFlow(rules, p)
  {
    var ports := SortedPorts(rules);
    AdmitsFlatMap(ports, IptTarget, p, fib);
    AdmitsFlatMap(ports, NftTarget, p, fib);
    forall i | 0 <= i < |ports| ensures Admits(IptTarget(ports[i]), p, fib) == Admits(NftTarget(ports[i]), p, fib)
        == PublishedFlow(ports[i], p) {
      TargetRules(ports[i], p, fib);
    }
    ValuesExact(rules.ports, port => PublishedFlow(port, p));
  }

  ghost function IptGenerated(rules: RuleSet): seq<Rule> {
    FlatMap(ForwardNetworks(rules), IptNetwork) + FlatMap(SharedNetworks(rules), IptShared) +
    FlatMap(ForwardPairs(rules), IptPair) + FlatMap(SortedPorts(rules), IptTarget)
  }

  ghost function NftGenerated(rules: RuleSet): seq<Rule> {
    FlatMap(ForwardNetworks(rules), NftNetwork) + FlatMap(SharedNetworks(rules), NftShared) +
    FlatMap(ForwardPairs(rules), NftPair) + FlatMap(SortedPorts(rules), NftTarget)
  }

  lemma AdmitsParts(a: seq<Rule>, b: seq<Rule>, c: seq<Rule>, d: seq<Rule>, p: Packet, fib: Fib)
    ensures Admits(a + b + c + d, p, fib)
       <==> Admits(a, p, fib) || Admits(b, p, fib) || Admits(c, p, fib) || Admits(d, p, fib)
  {
    AdmitsConcat(a, b, p, fib);
    AdmitsConcat(a + b, c, p, fib);
    AdmitsConcat(a + b + c, d, p, fib);
  }

  lemma GeneratedAdmit(rules: RuleSet, p: Packet, fib: Fib)
    ensures Admits(IptGenerated(rules), p, fib) == Admits(NftGenerated(rules), p, fib) == Forwardable(rules, p)
  {
    NetworksAdmit(rules, p, fib);
    SharedAdmit(rules, p, fib);
    PairsAdmit(rules, p, fib);
    TargetsAdmit(rules, p, fib);
    AdmitsParts(FlatMap(ForwardNetworks(rules), IptNetwork), FlatMap(SharedNetworks(rules), IptShared),
                FlatMap(ForwardPairs(rules), IptPair), FlatMap(SortedPorts(rules), IptTarget), p, fib);
    AdmitsParts(FlatMap(ForwardNetworks(rules), NftNetwork), FlatMap(SharedNetworks(rules), NftShared),
                FlatMap(ForwardPairs(rules), NftPair), FlatMap(SortedPorts(rules), NftTarget), p, fib);
  }

  lemma UniformParts(a: seq<Rule>, b: seq<Rule>, c: seq<Rule>, d: seq<Rule>, op: MarkOp)
    requires Uniform(a, op, Accept) && Uniform(b, op, Accept) && Uniform(c, op, Accept) && Uniform(d, op, Accept)
    ensures Uniform(a + b + c + d, op, Accept)
  {
  }

  lemma IptGeneratedUniform(rules: RuleSet)
    ensures Uniform(IptGenerated(rules), KeepMark, Accept)
  {
    UniformFlatMap(ForwardNetworks(rules), IptNetwork, KeepMark, Accept);
    UniformFlatMap(SharedNetworks(rules), IptShared, KeepMark, Accept);
    UniformFlatMap(ForwardPairs(rules), IptPair, KeepMark, Accept);
    UniformFlatMap(SortedPorts(rules), IptTarget, KeepMark, Accept);
    UniformParts(FlatMap(ForwardNetworks(rules), IptNetwork), FlatMap(SharedNetworks(rules), IptShared),
                 FlatMap(ForwardPairs(rules), IptPair), FlatMap(SortedPorts(rules), IptTarget), KeepMark);
  }

  lemma NftGeneratedUniform(rules: RuleSet)
    ensures Uniform(NftGenerated(rules), OrMark(PUBLISHED_MARK), Accept)
  {
    UniformFlatMap(ForwardNetworks(rules), NftNetwork, OrMark(PUBLISHED_MARK), Accept);
    UniformFlatMap(SharedNetworks(rules), NftShared, OrMark(PUBLISHED_MARK), Accept);
    UniformFlatMap(ForwardPairs(rules), NftPair, OrMark(PUBLISHED_MARK), Accept);
    UniformFlatMap(SortedPorts(rules), NftTarget, OrMark(PUBLISHED_MARK), Accept);
    UniformParts(FlatMap(ForwardNetworks(rules), NftNetwork), FlatMap(SharedNetworks(rules), NftShared),
                 FlatMap(ForwardPairs(rules), NftPair), FlatMap(SortedPorts(rules), NftTarget), OrMark(PUBLISHED_MARK));
  }

  lemma MarkRules(p: Packet, fib: Fib)
    ensures Run(IPT_MARKS, p, fib)
         == Outcome(if p.mark == PUBLISHED_MARK || p.mark == KUBERNETES_MARK then Accept else Continue, p.mark)
    ensures Run(NFT_MARKS, p, fib)
         == Outcome(if HasPublishedMark(p.mark) || p.mark == KUBERNETES_MARK then Accept else Continue, p.mark)
  {
    AllOne(MarkIs(PUBLISHED_MARK), p, fib);
    AllOne(MarkIs(KUBERNETES_MARK), p, fib);
    AllOne(MarkHas(PUBLISHED_MARK, PUBLISHED_MARK), p, fib);
    RunTwo(IPT_MARKS[0], IPT_MARKS[1], p, fib);
    RunTwo(NFT_MARKS[0], NFT_MARKS[1], p, fib);
  }

  /** The complete outcome of both FORWARD chains. */
  lemma ForwardOutcomes(rules: RuleSet, p: Packet, fib: Fib)
    ensures Run(IptCompiled(rules).forward, p, fib)
         == Outcome(if Forwardable(rules, p) || p.mark == PUBLISHED_MARK || p.mark == KUBERNETES_MARK
                    then Accept else Continue, p.mark)
    ensures Run(NftCompiled(rules).forward, p, fib)
         == if Forwardable(rules, p) then Outcome(Accept, p.mark | PUBLISHED_MARK)
            else Outcome(if HasPublishedMark(p.mark) || p.mark == KUBERNETES_MARK then Accept else Continue, p.mark)
  {
    IptGeneratedUniform(rules);
    NftGeneratedUniform(rules);
    GeneratedAdmit(rules, p, fib);
    RunThenMarks(IptGenerated(rules), IPT_MARKS, KeepMark, p, fib);
    RunThenMarks(NftGenerated(rules), NFT_MARKS, OrMark(PUBLISHED_MARK), p, fib);
    MarkRules(p, fib);
  }

  lemma RunThenMarks(chain: seq<Rule>, marks: seq<Rule>, op: MarkOp, p: Packet, fib: Fib)
    requires Uniform(chain, op, Accept)
    ensures Run(chain + marks, p, fib)
         == if Admits(chain, p, fib) then Outcome(Accept, Marked(op, p.mark)) else Run(marks, p, fib)
  {
    RunUniform(chain, op, Accept, p, fib);
    RunConcat(chain, marks, p, fib);
    assert p.(mark := p.mark) == p;
  }

  lemma MarkBits(mark: bv32)
    ensures HasPublishedMark(mark | PUBLISHED_MARK)
    ensures HasPublishedMark(PUBLISHED_MARK) && !HasPublishedMark(KUBERNETES_MARK)
  {
  }

  /** iptables accepts only what nft accepts; they part exactly on unrequested
      packets whose mark strictly contains the published bits; and every packet
      nft accepts leaves with those bits unless only the Kubernetes rule took it. */
  lemma ForwardAgreement(rules: RuleSet, p: Packet, fib: Fib)
    ensures var ipt, nft := Run(IptCompiled(rules).forward, p, fib), Run(NftCompiled(rules).forward, p, fib);
      && (ipt.action == Accept ==> nft.action == Accept)
      && (ipt.action != nft.action <==>
            !Forwardable(rules, p) && HasPublishedMark(p.mark) && p.mark != PUBLISHED_MARK)
      && ipt.mark == p.mark
      && (nft.action == Accept ==>
            (HasPublishedMark(nft.mark) <==> !(p.mark == KUBERNETES_MARK && !Forwardable(rules, p))))
  {
    ForwardOutcomes(rules, p, fib);
    MarkBits(p.mark);
  }

  // --- what the forward law means for new and invalid packets ----------------

  /** The packet enters by a bridge some network names, from that network's subnet. */
  ghost predicate LeavesANetwork(rules: RuleSet, p: Packet) {
    exists u :: u in rules.forwardBridges && rules.forwardBridges[u] == p.inIf && u in rules.forwardSubnets &&
      Contains(Subnet(rules.forwardSubnets[u]), p.src)
  }

  /** Both ends are in one shared network and the packet leaves by its bridge. */
  ghost predicate StaysInShared(rules: RuleSet, p: Packet) {
    exists u :: u in rules.sharedIngress && rules.sharedIngress[u] && u in rules.forwardBridges &&
      rules.forwardBridges[u] == p.outIf && u in rules.forwardSubnets &&
      Contains(Subnet(rules.forwardSubnets[u]), p.src) && Contains(Subnet(rules.forwardSubnets[u]), p.dst)
  }

  /** A configured peer sends to the local subnet out of the network's bridge. */
  ghost predicate ComesFromPeer(rules: RuleSet, p: Packet) {
    exists u, i :: u in rules.forwardPeers && 0 <= i < |rules.forwardPeers[u]| &&
      Contains(Subnet(rules.forwardPeers[u][i]), p.src) && u in rules.forwardBridges && rules.forwardBridges[u] == p.outIf &&
      u in rules.forwardSubnets && Contains(Subnet(rules.forwardSubnets[u]), p.dst)
  }

  /** A redirected packet on its way to a published container port. */
  ghost predicate ReachesTarget(rules: RuleSet, p: Packet) {
    exists k :: k in rules.ports && p.dnatted && p.dst == rules.ports[k].targetIP &&
      p.proto == rules.ports[k].proto && p.dport == rules.ports[k].targetPort
  }

  /** The packet marks in full, and a mark equal to the published bits has them. */
  lemma MarksInFull(mark: bv32)
    ensures PUBLISHED_MARK == 0x1068 && KUBERNETES_MARK == 0x4000
    ensures mark | PUBLISHED_MARK == mark | 0x1068
    ensures HasPublishedMark(mark) <==> mark & 0x1068 == 0x1068
    ensures mark == PUBLISHED_MARK ==> HasPublishedMark(mark)
  {
  }

  lemma ManagedIsNamed(rules: RuleSet, p: Packet)
    ensures ManagedFlow(rules, p) && p.state == New ==> LeavesANetwork(rules, p)
    ensures ManagedFlow(rules, p) || SharedIngressFlow(rules, p) ==> p.state != Invalid
    ensures SharedIngressFlow(rules, p) ==> StaysInShared(rules, p)
    ensures PublishedIngressFlow(rules, p) ==> ReachesTarget(rules, p)
  {
  }

  lemma RequestedIsNamed(rules: RuleSet, p: Packet)
    requires ValidRuleSet(rules)
    ensures ManagedFlow(rules, p) && p.state == New ==> LeavesANetwork(rules, p)
    ensures ManagedFlow(rules, p) || SharedIngressFlow(rules, p) ==> p.state != Invalid
    ensures SharedIngressFlow(rules, p) ==> StaysInShared(rules, p)
    ensures PublishedIngressFlow(rules, p) ==> ReachesTarget(rules, p)
    ensures PeerIngressFlow(rules, p) ==> ComesFromPeer(rules, p)
  {
    ManagedIsNamed(rules, p);
    if PeerIngressFlow(rules, p) {
      var u, q :| PairOf(rules, u, q) && PeerFlow(q, p);
      PeerIsNamed(rules, u, q, p);
    }
  }

  lemma PeerIsNamed(rules: RuleSet, u: string, q: Pair, p: Packet)
    requires ValidRuleSet(rules) && PairOf(rules, u, q) && PeerFlow(q, p)
    ensures ComesFromPeer(rules, p)
  {
    assert Managed(rules, u);
    var i :| 0 <= i < |rules.forwardPeers[u]| && rules.forwardPeers[u][i] == q.peer;
  }

  /** Unsolicited traffic into the managed networks falls through both chains. */
  lemma UnsolicitedIsNotAccepted(rules: RuleSet, p: Packet, fib: Fib)
    requires ValidRuleSet(rules) && p.state == New && p.mark & 0x1068 != 0x1068 && p.mark != 0x4000
    requires !LeavesANetwork(rules, p) && !StaysInShared(rules, p) && !ComesFromPeer(rules, p) && !ReachesTarget(rules, p)
    ensures Run(IptCompiled(rules).forward, p, fib) == Outcome(Continue, p.mark)
    ensures Run(NftCompiled(rules).forward, p, fib) == Outcome(Continue, p.mark)
  {
    ForwardOutcomes(rules, p, fib);
    RequestedIsNamed(rules, p);
    MarksInFull(p.mark);
  }

  lemma ServedIsForwardable(rules: RuleSet, u: string, p: Packet)
    requires u in rules.forwardSubnets && rules.forwardSubnets[u] != "" && u in rules.forwardBridges && rules.forwardBridges[u] != ""
    requires
      (p.inIf == rules.forwardBridges[u] && Contains(Subnet(rules.forwardSubnets[u]), p.src) && p.state != Invalid) ||
      (p.outIf == rules.forwardBridges[u] && Contains(Subnet(rules.forwardSubnets[u]), p.dst) &&
       (p.state == Established || p.state == Related))
    ensures Forwardable(rules, p)
  {
    assert NetworkFlow(rules.forwardBridges[u], rules.forwardSubnets[u], p);
    assert ManagedFlow(rules, p);
  }

  lemma ForwardableIsAccepted(rules: RuleSet, p: Packet, fib: Fib)
    requires Forwardable(rules, p)
    ensures Run(IptCompiled(rules).forward, p, fib) == Outcome(Accept, p.mark)
    ensures Run(NftCompiled(rules).forward, p, fib).action == Accept
    ensures Run(NftCompiled(rules).forward, p, fib).mark == p.mark | PUBLISHED_MARK
  {
    ForwardOutcomes(rules, p, fib);
  }

  /** A container may open connections out of its bridge, and answers to it come back. */
  lemma NetworkIsServed(rules: RuleSet, u: string, p: Packet, fib: Fib)
    requires u in rules.forwardSubnets && rules.forwardSubnets[u] != "" && u in rules.forwardBridges && rules.forwardBridges[u] != ""
    requires
      (p.inIf == rules.forwardBridges[u] && Contains(Subnet(rules.forwardSubnets[u]), p.src) && p.state != Invalid) ||
      (p.outIf == rules.forwardBridges[u] && Contains(Subnet(rules.forwardSubnets[u]), p.dst) &&
       (p.state == Established || p.state == Related))
    ensures Run(IptCompiled(rules).forward, p, fib) == Outcome(Accept, p.mark)
    ensures Run(NftCompiled(rules).forward, p, fib).action == Accept
    ensures Run(NftCompiled(rules).forward, p, fib).mark == p.mark | 0x1068
  {
    ServedIsForwardable(rules, u, p);
    ForwardableIsAccepted(rules, p, fib);
    MarksInFull(p.mark);
  }

  /** Without a mark, an invalid packet is accepted only for a peer or a published port. */
  lemma InvalidNeedsPeerOrTarget(rules: RuleSet, p: Packet, fib: Fib)
    requires ValidRuleSet(rules) && p.state == Invalid && p.mark & 0x1068 != 0x1068 && p.mark != 0x4000
    ensures Run(IptCompiled(rules).forward, p, fib).action == Accept ==> ComesFromPeer(rules, p) || ReachesTarget(rules, p)
    ensures Run(NftCompiled(rules).forward, p, fib).action == Accept ==> ComesFromPeer(rules, p) || ReachesTarget(rules, p)
  {
    ForwardOutcomes(rules, p, fib);
    RequestedIsNamed(rules, p);
    MarksInFull(p.mark);
  }
}
