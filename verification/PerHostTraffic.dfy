/** What peer subnets, host NAT and forwarding together do to the traffic of a
    network whose subnet differs from host to host. */
module PerHostTraffic {
  import opened StringOrder
  import opened Wrappers
  import opened Cidr
  import opened Netfilter
  import P = PeerSubnets
  import Nat = HostnatRules
  import Ports = HostportsRules
  import Meaning = HostportsMeaning

  /** The same network as both watchers configure it from one metadata snapshot. */
  ghost predicate Configured(uuid: string, bridge: string, reference: string, localUuid: string, localSubnet: string,
                             hosts: seq<P.Host>, hostnat: Nat.RuleSet, ports: Ports.RuleSet)
  {
    && P.IsReference(reference) && bridge != "" && localSubnet != ""
    && P.Expected(reference, localUuid, localSubnet, hosts).Ok?
    && (var peers := P.Expected(reference, localUuid, localSubnet, hosts).value;
        && uuid in hostnat.masq && hostnat.masq[uuid] == Nat.MasqRule(localSubnet, bridge, peers)
        && uuid in ports.forwardSubnets && ports.forwardSubnets[uuid] == localSubnet
        && uuid in ports.forwardBridges && ports.forwardBridges[uuid] == bridge
        && uuid in ports.forwardPeers && ports.forwardPeers[uuid] == peers)
  }

  /** No other network's subnet holds either end of the traffic. */
  ghost predicate ApartFromOthers(uuid: string, hostnat: Nat.RuleSet, prefix: Prefix) {
    forall v :: v in hostnat.masq && v != uuid ==> Disjoint(Subnet(hostnat.masq[v].subnet), prefix)
  }

  ghost predicate Overlay(local: string, peer: string, p: Packet) {
    (Contains(Subnet(local), p.src) && Contains(Subnet(peer), p.dst)) ||
    (Contains(Subnet(peer), p.src) && Contains(Subnet(local), p.dst))
  }

  function OverlayVerdict(own: bool, localSubnet: string, p: Packet): Action {
    if own && Contains(Subnet(localSubnet), p.src) then Return else Continue
  }

  lemma OtherNetworksIgnore(m: Nat.MasqRule, p: Packet, fib: Fib)
    requires !Contains(Subnet(m.subnet), p.src) && fib(p.src) != Local
    ensures Nat.NetworkVerdict(m, p, fib) == Continue
  {
  }

  /** In the local subnet the peer rule of the own network decides; from a peer
      no network decides. */
  lemma NetworkVerdicts(uuid: string, bridge: string, reference: string, localUuid: string, localSubnet: string,
                        hosts: seq<P.Host>, hostnat: Nat.RuleSet, ports: Ports.RuleSet, peer: string, p: Packet, fib: Fib)
    requires Configured(uuid, bridge, reference, localUuid, localSubnet, hosts, hostnat, ports)
    requires peer in hostnat.masq[uuid].peers
    requires ApartFromOthers(uuid, hostnat, Subnet(localSubnet)) && ApartFromOthers(uuid, hostnat, Subnet(peer))
    requires Overlay(localSubnet, peer, p) && fib(p.src) != Local
    ensures forall v :: v in hostnat.masq ==>
      Nat.NetworkVerdict(hostnat.masq[v], p, fib) == OverlayVerdict(v == uuid, localSubnet, p)
  {
    P.PeersAvoidLocal(reference, localUuid, localSubnet, hosts, peer);
    forall v | v in hostnat.masq
      ensures Nat.NetworkVerdict(hostnat.masq[v], p, fib) == OverlayVerdict(v == uuid, localSubnet, p)
    {
      if v == uuid && Contains(Subnet(localSubnet), p.src) {
        assert Contains(Subnet(peer), p.dst);
        assert Nat.ToPeer(hostnat.masq[v], p);
      } else {
        OtherNetworksIgnore(hostnat.masq[v], p, fib);
      }
    }
  }

  /** When no IKE rule and no other network has an opinion, the own network's counts. */
  lemma OnlyOneDecides(hostnat: Nat.RuleSet, uuid: string, verdict: Action, p: Packet, fib: Fib)
    requires uuid in hostnat.masq && forall k :: k in hostnat.ike ==> !Nat.IkeApplies(hostnat.ike[k], p)
    requires forall v :: v in hostnat.masq ==>
      Nat.NetworkVerdict(hostnat.masq[v], p, fib) == if v == uuid then verdict else Continue
    ensures Nat.NatVerdict(hostnat, p, fib) == verdict
  {
    ValuesExact(hostnat.ike, r => Nat.IkeApplies(r, p));
    var decides := m => Nat.NetworkVerdict(m, p, fib) != Continue;
    ValuesExact(hostnat.masq, decides);
    OnlyKeysListed(hostnat.masq.Keys);
    assert verdict != Continue ==> decides(hostnat.masq[uuid]);
  }

  /** Traffic between the local subnet and a peer keeps its source address in
      both backends. */
  lemma OverlayIsNotTranslated(uuid: string, bridge: string, reference: string, localUuid: string, localSubnet: string,
                               hosts: seq<P.Host>, hostnat: Nat.RuleSet, ports: Ports.RuleSet, peer: string, p: Packet, fib: Fib)
    requires Configured(uuid, bridge, reference, localUuid, localSubnet, hosts, hostnat, ports)
    requires peer in hostnat.masq[uuid].peers
    requires ApartFromOthers(uuid, hostnat, Subnet(localSubnet)) && ApartFromOthers(uuid, hostnat, Subnet(peer))
    requires Overlay(localSubnet, peer, p) && fib(p.src) != Local
    requires forall k :: k in hostnat.ike ==> !Nat.IkeApplies(hostnat.ike[k], p)
    ensures Run(Nat.IptChain(hostnat), p, fib) == Run(Nat.NftChain(hostnat), p, fib)
         == Outcome(OverlayVerdict(true, localSubnet, p), p.mark)
  {
    Nat.NatAgreement(hostnat, p, fib);
    NetworkVerdicts(uuid, bridge, reference, localUuid, localSubnet, hosts, hostnat, ports, peer, p, fib);
    OnlyOneDecides(hostnat, uuid, OverlayVerdict(true, localSubnet, p), p, fib);
  }

  /** New traffic from a peer to the local subnet, leaving by the network's
      bridge, is accepted by both FORWARD chains, whatever its connection state. */
  lemma PeerIngressIsAccepted(uuid: string, bridge: string, reference: string, localUuid: string, localSubnet: string,
                              hosts: seq<P.Host>, hostnat: Nat.RuleSet, ports: Ports.RuleSet, peer: string, p: Packet, fib: Fib)
    requires Configured(uuid, bridge, reference, localUuid, localSubnet, hosts, hostnat, ports)
    requires peer in hostnat.masq[uuid].peers
    requires p.outIf == bridge && Contains(Subnet(peer), p.src) && Contains(Subnet(localSubnet), p.dst)
    ensures Run(Ports.IptCompiled(ports).forward, p, fib).action == Accept
    ensures Run(Ports.NftCompiled(ports).forward, p, fib).action == Accept
  {
    var q := Ports.Pair(peer, localSubnet, bridge);
    assert Ports.PairOf(ports, uuid, q) && Meaning.PeerFlow(q, p);
    Meaning.ForwardOutcomes(ports, p, fib);
  }
}
