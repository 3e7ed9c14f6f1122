/** The host NAT rule set, its two compilations, and what they mean. */
module HostnatRules {
  import opened StringOrder
  import opened Wrappers
  import opened Cidr
  import opened Lists
  import opened Netfilter

  datatype MasqRule = MasqRule(subnet: string, bridge: string, peers: seq<string>)
  datatype IkeRule = IkeRule(sourceIP: Address, hostIP: Address, bridge: string, port: nat)
  datatype RuleSet = RuleSet(masq: map<string, MasqRule>, ike: map<string, IkeRule>)

  predicate ValidInterface(name: string) {
    0 < |name| <= 15 &&
    forall i :: 0 <= i < |name| ==>
      'a' <= name[i] <= 'z' || 'A' <= name[i] <= 'Z' || '0' <= name[i] <= '9' || name[i] in "_.:-"
  }

  predicate ValidRules(rules: RuleSet) {
    (forall k :: k in rules.masq ==>
      ValidSubnet(rules.masq[k].subnet) && ValidInterface(rules.masq[k].bridge) &&
      forall i :: 0 <= i < |rules.masq[k].peers| ==> ValidSubnet(rules.masq[k].peers[i])) &&
    (forall k :: k in rules.ike ==>
      (rules.ike[k].bridge == "" || ValidInterface(rules.ike[k].bridge)) &&
      (rules.ike[k].port == 500 || rules.ike[k].port == 4500))
  }

  // --- rules of one element ---------------------------------------------

  function AwayFrom(bridge: string): seq<Match> { if bridge != "" then [OutIsNot(bridge)] else [] }

  function IptIke(r: IkeRule): seq<Rule> {
    [ Rule([ProtoIs(Udp), SrcIn(Prefix(r.sourceIP, 32)), SportIs(r.port)] + AwayFrom(r.bridge),
           KeepMark, Snat(r.hostIP, r.port)) ]
  }

  function NftIke(r: IkeRule): seq<Rule> {
    [ Rule([SrcIn(Prefix(r.sourceIP, 32)), ProtoIs(Udp), SportIs(r.port)] + AwayFrom(r.bridge),
           KeepMark, Snat(r.hostIP, r.port)) ]
  }

  function PeerRule(subnet: string, peer: string): seq<Rule> {
    [ Rule([SrcIn(Subnet(subnet)), DstIn(Subnet(peer))], KeepMark, Return) ]
  }

  function Leaving(m: MasqRule): seq<Match> {
    [SrcIn(Subnet(m.subnet)), DstNotIn(Subnet(m.subnet)), OutIsNot(m.bridge)]
  }

  function IptMasqTail(m: MasqRule): seq<Rule> {
    [ Rule([ProtoIs(Tcp)] + Leaving(m), KeepMark, Masquerade(true)),
      Rule([ProtoIs(Udp)] + Leaving(m), KeepMark, Masquerade(true)),
      Rule(Leaving(m), KeepMark, Masquerade(false)),
      Rule([OutIs(m.bridge), SrcType(Local), DstType(Unicast)], KeepMark, Masquerade(false)) ]
  }

  function NftMasqTail(m: MasqRule): seq<Rule> {
    [ Rule(Leaving(m) + [ProtoIs(Tcp)], KeepMark, Masquerade(true)),
      Rule(Leaving(m) + [ProtoIs(Udp)], KeepMark, Masquerade(true)),
      Rule(Leaving(m), KeepMark, Masquerade(false)),
      Rule([OutIs(m.bridge), SrcType(Local), DstType(Unicast)], KeepMark, Masquerade(false)) ]
  }

  function PeerRuleFor(subnet: string): string -> seq<Rule> { peer => PeerRule(subnet, peer) }

  function PeerRules(m: MasqRule): seq<Rule> { FlatMap(m.peers, PeerRuleFor(m.subnet)) }

  function IptMasq(m: MasqRule): seq<Rule> { PeerRules(m) + IptMasqTail(m) }

  function NftMasq(m: MasqRule): seq<Rule> { PeerRules(m) + NftMasqTail(m) }

  ghost function IptChain(rules: RuleSet): seq<Rule> {
    FlatMap(SortedValues(rules.ike), IptIke) + FlatMap(SortedValues(rules.masq), IptMasq)
  }

  ghost function NftChain(rules: RuleSet): seq<Rule> {
    FlatMap(SortedValues(rules.ike), NftIke) + FlatMap(SortedValues(rules.masq), NftMasq)
  }

  // --- generators -----------------------------------------------------------

  method MasqIptables(m: MasqRule) returns (rules: seq<Rule>)
    ensures rules == IptMasq(m)
  {
    rules := Emit([], m.peers, PeerRuleFor(m.subnet));
    rules := rules + IptMasqTail(m);
  }

  method MasqNft(m: MasqRule) returns (rules: seq<Rule>)
    ensures rules == NftMasq(m)
  {
    rules := Emit([], m.peers, PeerRuleFor(m.subnet));
    rules := rules + NftMasqTail(m);
  }

  method MasqsIptables(masqs: seq<MasqRule>) returns (rules: seq<Rule>)
    ensures rules == FlatMap(masqs, IptMasq)
  {
    rules := [];
    for i := 0 to |masqs|
      invariant rules == FlatMap(masqs[..i], IptMasq)
    {
      assert masqs[..i + 1][..i] == masqs[..i];
      var own := MasqIptables(masqs[i]);
      rules := rules + own;
    }
    assert masqs[..|masqs|] == masqs;
  }

  method MasqsNft(masqs: seq<MasqRule>) returns (rules: seq<Rule>)
    ensures rules == FlatMap(masqs, NftMasq)
  {
    rules := [];
    for i := 0 to |masqs|
      invariant rules == FlatMap(masqs[..i], NftMasq)
    {
      assert masqs[..i + 1][..i] == masqs[..i];
      var own := MasqNft(masqs[i]);
      rules := rules + own;
    }
    assert masqs[..|masqs|] == masqs;
  }

  method CompileIptables(rules: RuleSet) returns (chain: seq<Rule>)
    ensures chain == IptChain(rules)
  {
    var ikes := CollectValues(rules.ike);
    var head := Emit([], ikes, IptIke);
    var masqs := CollectValues(rules.masq);
    var tail := MasqsIptables(masqs);
    chain := head + tail;
  }

  method CompileNft(rules: RuleSet) returns (chain: seq<Rule>)
    ensures chain == NftChain(rules)
  {
    var ikes := CollectValues(rules.ike);
    var head := Emit([], ikes, NftIke);
    var masqs := CollectValues(rules.masq);
    var tail := MasqsNft(masqs);
    chain := head + tail;
  }

  // --- meaning ----------------------------------------------------------------

  predicate IkeApplies(r: IkeRule, p: Packet) {
    p.proto == Udp && p.src == r.sourceIP && p.sport == r.port && (r.bridge == "" || p.outIf != r.bridge)
  }

  predicate ToPeer(m: MasqRule, p: Packet) {
    Contains(Subnet(m.subnet), p.src) && exists i :: 0 <= i < |m.peers| && Contains(Subnet(m.peers[i]), p.dst)
  }

  predicate LeavesSubnet(m: MasqRule, p: Packet) {
    Contains(Subnet(m.subnet), p.src) && !Contains(Subnet(m.subnet), p.dst) && p.outIf != m.bridge
  }

  predicate FromHost(m: MasqRule, p: Packet, fib: Fib) {
    p.outIf == m.bridge && fib(p.src) == Local && fib(p.dst) == Unicast
  }

  /** What one managed network asks for, peers first. */
  function NetworkVerdict(m: MasqRule, p: Packet, fib: Fib): Action {
    if ToPeer(m, p) then Return
    else if LeavesSubnet(m, p) then Masquerade(p.proto == Tcp || p.proto == Udp)
    else if FromHost(m, p, fib) then Masquerade(false)
    else Continue
  }

  /** The source translation of a packet: IKE endpoints first, then the first
      network in key order that has an opinion. */
  ghost function NatVerdict(rules: RuleSet, p: Packet, fib: Fib): Action {
    match First(SortedValues(rules.ike), r => IkeApplies(r, p))
    case Some(r) => Snat(r.hostIP, r.port)
    case None =>
      match First(SortedValues(rules.masq), m => NetworkVerdict(m, p, fib) != Continue)
      case Some(m) => NetworkVerdict(m, p, fib)
      case None => Continue
  }

  function IkeOutcome(r: IkeRule, p: Packet): Outcome {
    Outcome(if IkeApplies(r, p) then Snat(r.hostIP, r.port) else Continue, p.mark)
  }

  lemma IkeMatches(r: IkeRule, p: Packet, fib: Fib)
    ensures Run(IptIke(r), p, fib) == Run(NftIke(r), p, fib) == IkeOutcome(r, p)
  {
    assert Block(32) == 1;
    AllThree(ProtoIs(Udp), SrcIn(Prefix(r.sourceIP, 32)), SportIs(r.port), p, fib);
    AllThree(SrcIn(Prefix(r.sourceIP, 32)), ProtoIs(Udp), SportIs(r.port), p, fib);
    AllOne(OutIsNot(r.bridge), p, fib);
    AllConcat([ProtoIs(Udp), SrcIn(Prefix(r.sourceIP, 32)), SportIs(r.port)], AwayFrom(r.bridge), p, fib);
    AllConcat([SrcIn(Prefix(r.sourceIP, 32)), ProtoIs(Udp), SportIs(r.port)], AwayFrom(r.bridge), p, fib);
    RunSingle(IptIke(r)[0], p, fib);
    RunSingle(NftIke(r)[0], p, fib);
  }

  lemma PeerAdmits(subnet: string, peer: string, p: Packet, fib: Fib)
    ensures Admits(PeerRule(subnet, peer), p, fib) <==> Contains(Subnet(subnet), p.src) && Contains(Subnet(peer), p.dst)
    ensures Uniform(PeerRule(subnet, peer), KeepMark, Return)
  {
    var r := PeerRule(subnet, peer)[0];
    AllTwo(SrcIn(Subnet(subnet)), DstIn(Subnet(peer)), p, fib);
    assert PeerRule(subnet, peer) == [r] && [r][0] == r;
  }

  lemma PeersAdmit(m: MasqRule, p: Packet, fib: Fib)
    ensures Admits(PeerRules(m), p, fib) <==> ToPeer(m, p)
    ensures Uniform(PeerRules(m), KeepMark, Return)
  {
    var f := PeerRuleFor(m.subnet);
    forall peer
      ensures Admits(f(peer), p, fib) <==> Contains(Subnet(m.subnet), p.src) && Contains(Subnet(peer), p.dst)
      ensures Uniform(f(peer), KeepMark, Return)
    {
      PeerAdmits(m.subnet, peer, p, fib);
    }
    UniformFlatMap(m.peers, f, KeepMark, Return);
    AdmitsFlatMap(m.peers, f, p, fib);
  }

  lemma PeersReturn(m: MasqRule, tail: seq<Rule>, p: Packet, fib: Fib)
    ensures Run(PeerRules(m) + tail, p, fib) == if ToPeer(m, p) then Outcome(Return, p.mark) else Run(tail, p, fib)
  {
    PeersAdmit(m, p, fib);
    RunUniform(PeerRules(m), KeepMark, Return, p, fib);
    RunConcat(PeerRules(m), tail, p, fib);
    assert p.(mark := p.mark) == p;
  }

  /** Deciding rules that keep the mark are tried one after the other. */
  lemma RunFour(a: Rule, b: Rule, c: Rule, d: Rule, p: Packet, fib: Fib)
    requires a.action != Continue && b.action != Continue && c.action != Continue && d.action != Continue
    requires a.markOp == b.markOp == c.markOp == d.markOp == KeepMark
    ensures Run([a, b, c, d], p, fib).mark == p.mark
    ensures Run([a, b, c, d], p, fib).action ==
      if Matches(a, p, fib) then a.action else if Matches(b, p, fib) then b.action
      else if Matches(c, p, fib) then c.action else if Matches(d, p, fib) then d.action else Continue
  {
    assert p.(mark := p.mark) == p;
    assert [a, b, c, d] == [a] + ([b] + [c, d]);
    RunCons(a, [b] + [c, d], p, fib);
    RunCons(b, [c, d], p, fib);
    RunTwo(c, d, p, fib);
  }

  lemma LeavingMatches(m: MasqRule, proto: Proto, p: Packet, fib: Fib)
    ensures All(Leaving(m), p, fib) <==> LeavesSubnet(m, p)
    ensures All([ProtoIs(proto)] + Leaving(m), p, fib) <==> p.proto == proto && LeavesSubnet(m, p)
    ensures All(Leaving(m) + [ProtoIs(proto)], p, fib) <==> p.proto == proto && LeavesSubnet(m, p)
  {
    AllThree(SrcIn(Subnet(m.subnet)), DstNotIn(Subnet(m.subnet)), OutIsNot(m.bridge), p, fib);
    AllOne(ProtoIs(proto), p, fib);
    AllConcat([ProtoIs(proto)], Leaving(m), p, fib);
    AllConcat(Leaving(m), [ProtoIs(proto)], p, fib);
  }

  /** The tail of a network's rules, with `leave` and `own` as the matches of its
      two kinds of masquerading. */
  function Tail(tcp: seq<Match>, udp: seq<Match>, leave: seq<Match>, own: seq<Match>): seq<Rule> {
    [ Rule(tcp, KeepMark, Masquerade(true)), Rule(udp, KeepMark, Masquerade(true)),
      Rule(leave, KeepMark, Masquerade(false)), Rule(own, KeepMark, Masquerade(false)) ]
  }

  lemma TailDecides(m: MasqRule, tcp: seq<Match>, udp: seq<Match>, leave: seq<Match>, own: seq<Match>, p: Packet, fib: Fib)
    requires !ToPeer(m, p)
    requires All(tcp, p, fib) <==> p.proto == Tcp && LeavesSubnet(m, p)
    requires All(udp, p, fib) <==> p.proto == Udp && LeavesSubnet(m, p)
    requires All(leave, p, fib) <==> LeavesSubnet(m, p)
    requires All(own, p, fib) <==> FromHost(m, p, fib)
    ensures Run(Tail(tcp, udp, leave, own), p, fib) == Outcome(NetworkVerdict(m, p, fib), p.mark)
  {
    var rs := Tail(tcp, udp, leave, own);
    RunFour(rs[0], rs[1], rs[2], rs[3], p, fib);
  }

  lemma OwnMatches(m: MasqRule, p: Packet, fib: Fib)
    ensures All([OutIs(m.bridge), SrcType(Local), DstType(Unicast)], p, fib) <==> FromHost(m, p, fib)
  {
    AllThree(OutIs(m.bridge), SrcType(Local), DstType(Unicast), p, fib);
  }

  lemma IptTailMatches(m: MasqRule, p: Packet, fib: Fib)
    requires !ToPeer(m, p)
    ensures Run(IptMasqTail(m), p, fib) == Outcome(NetworkVerdict(m, p, fib), p.mark)
  {
    LeavingMatches(m, Tcp, p, fib);
    LeavingMatches(m, Udp, p, fib);
    OwnMatches(m, p, fib);
    TailDecides(m, [ProtoIs(Tcp)] + Leaving(m), [ProtoIs(Udp)] + Leaving(m), Leaving(m),
                [OutIs(m.bridge), SrcType(Local), DstType(Unicast)], p, fib);
  }

  lemma NftTailMatches(m: MasqRule, p: Packet, fib: Fib)
    requires !ToPeer(m, p)
    ensures Run(NftMasqTail(m), p, fib) == Outcome(NetworkVerdict(m, p, fib), p.mark)
  {
    LeavingMatches(m, Tcp, p, fib);
    LeavingMatches(m, Udp, p, fib);
    OwnMatches(m, p, fib);
    TailDecides(m, Leaving(m) + [ProtoIs(Tcp)], Leaving(m) + [ProtoIs(Udp)], Leaving(m),
                [OutIs(m.bridge), SrcType(Local), DstType(Unicast)], p, fib);
  }

  lemma NetworkMatches(m: MasqRule, p: Packet, fib: Fib)
    ensures Run(IptMasq(m), p, fib) == Run(NftMasq(m), p, fib) == Outcome(NetworkVerdict(m, p, fib), p.mark)
  {
    PeersReturn(m, IptMasqTail(m), p, fib);
    PeersReturn(m, NftMasqTail(m), p, fib);
    if !ToPeer(m, p) {
      IptTailMatches(m, p, fib);
      NftTailMatches(m, p, fib);
    }
  }

  lemma ChainVerdict(rules: RuleSet, ike: IkeRule -> seq<Rule>, masq: MasqRule -> seq<Rule>, p: Packet, fib: Fib)
    requires forall r :: Run(ike(r), p, fib) == IkeOutcome(r, p)
    requires forall m :: Run(masq(m), p, fib) == Outcome(NetworkVerdict(m, p, fib), p.mark)
    ensures Run(FlatMap(SortedValues(rules.ike), ike) + FlatMap(SortedValues(rules.masq), masq), p, fib)
         == Outcome(NatVerdict(rules, p, fib), p.mark)
  {
    var ikes, masqs := SortedValues(rules.ike), SortedValues(rules.masq);
    RunPicksFirst(ikes, ike, r => IkeApplies(r, p), r => IkeOutcome(r, p), p, fib);
    RunPicksFirst(masqs, masq, m => NetworkVerdict(m, p, fib) != Continue,
                  m => Outcome(NetworkVerdict(m, p, fib), p.mark), p, fib);
    RunConcat(FlatMap(ikes, ike), FlatMap(masqs, masq), p, fib);
    assert p.(mark := p.mark) == p;
  }

  /** Both backends translate every packet the same way, and as the rule set says. */
  lemma NatAgreement(rules: RuleSet, p: Packet, fib: Fib)
    ensures Run(IptChain(rules), p, fib) == Run(NftChain(rules), p, fib) == Outcome(NatVerdict(rules, p, fib), p.mark)
  {
    forall r
      ensures Run(IptIke(r), p, fib) == Run(NftIke(r), p, fib) == IkeOutcome(r, p)
    {
      IkeMatches(r, p, fib);
    }
    forall m ensures Run(IptMasq(m), p, fib) == Run(NftMasq(m), p, fib) == Outcome(NetworkVerdict(m, p, fib), p.mark) {
      NetworkMatches(m, p, fib);
    }
    ChainVerdict(rules, IptIke, IptMasq, p, fib);
    ChainVerdict(rules, NftIke, NftMasq, p, fib);
  }

  // --- validation, in full ---------------------------------------------------

  predicate InterfaceCharacter(c: char) {
    'a' <= c <= 'z' || 'A' <= c <= 'Z' || '0' <= c <= '9' || c == '_' || c == '.' || c == ':' || c == '-'
  }

  predicate Interface(name: string) {
    1 <= |name| && |name| <= 15 && forall i :: 0 <= i < |name| ==> InterfaceCharacter(name[i])
  }

  predicate Narrow(text: string) { ParsePrefix4(text).Some? && ParsePrefix4(text).value.bits != 0 }

  /** What the rule set must satisfy before anything is compiled. */
  lemma ValidRulesExactly(rules: RuleSet)
    ensures ValidRules(rules) <==>
      (forall k :: k in rules.masq ==> Narrow(rules.masq[k].subnet) && Interface(rules.masq[k].bridge)) &&
      (forall k, i :: k in rules.masq && 0 <= i < |rules.masq[k].peers| ==> Narrow(rules.masq[k].peers[i])) &&
      (forall k :: k in rules.ike ==> rules.ike[k].port in {500, 4500} && (rules.ike[k].bridge != "" ==> Interface(rules.ike[k].bridge)))
  {
    forall name: string ensures ValidInterface(name) <==> Interface(name) { SameInterface(name); }
  }

  lemma SameInterface(name: string)
    ensures ValidInterface(name) <==> Interface(name)
  {
    forall c: char ensures c in "_.:-" <==> c == '_' || c == '.' || c == ':' || c == '-' {}
  }
}
