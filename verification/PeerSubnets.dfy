/** Host-label references and the peer subnets derived from them. */
module PeerSubnets {
  import opened StringOrder
  import opened Lists
  import opened Wrappers
  import opened Cidr

  datatype Host = Host(uuid: string, state: string, labels: map<string, string>)

  datatype Result<+T> = Ok(value: T) | Err

  const REFERENCE_PREFIX := "__host_label__:"

  predicate IsReference(value: string) { REFERENCE_PREFIX <= value }

  /** `unicode.IsSpace`, which `strings.TrimSpace` removes at both ends. */
  predicate IsSpace(c: char) {
    var code := c as int;
    9 <= code <= 13 || code == 32 || code == 0x85 || code == 0xA0 || code == 0x1680 || 0x2000 <= code <= 0x200A ||
    code in {0x2028, 0x2029, 0x202F, 0x205F, 0x3000}
  }

  /** The separators a label name must not hold. */
  predicate IsSeparator(c: char) { c in " \t\r\n" }

  function TrimLeft(s: string): string {
    if s != "" && IsSpace(s[0]) then TrimLeft(s[1..]) else s
  }

  function TrimSpace(s: string): string {
    if s != "" && IsSpace(s[|s| - 1]) then TrimSpace(s[..|s| - 1]) else TrimLeft(s)
  }

  /** `net.ParseCIDR` restricted to IPv4; unlike `netip` it takes leading zeros in the mask. */
  function ParseCidr4(text: string): Option<Prefix> {
    var halves := Split(text, '/');
    if |halves| != 2 || !AllDigits(halves[1]) || Decimal(halves[1]) > 32 || ParseAddress4(halves[0]).None? then None
    else Some(Prefix(ParseAddress4(halves[0]).value, Decimal(halves[1])))
  }

  /** An IPv4 subnet written with its own network address. */
  predicate Canonical(text: string) {
    var p := ParseCidr4(text);
    p.Some? && p.value.addr % Block(p.value.bits) == 0
  }

  /** `Resolve`: expand a host-label reference; anything else is kept as it is. */
  function Resolve(value: string, labels: map<string, string>): (r: Result<string>)
    ensures !IsReference(value) ==> r == Ok(value)
    ensures IsReference(value) && r.Ok? ==> Canonical(r.value)
  {
    if !IsReference(value) then Ok(value)
    else
      var key := TrimSpace(value[|REFERENCE_PREFIX|..]);
      if key == "" || (exists i :: 0 <= i < |key| && IsSeparator(key[i])) then Err
      else
        var resolved := TrimSpace(if key in labels then labels[key] else "");
        if Canonical(resolved) then Ok(resolved) else Err
  }

  // --- specification ---------------------------------------------------------

  predicate ActivePeer(h: Host, localUuid: string) { h.uuid != localUuid && h.state == "active" }

  predicate Resolvable(reference: string, h: Host) {
    Resolve(reference, h.labels).Ok? && ParsePrefix4(Resolve(reference, h.labels).value).Some?
  }

  predicate AllResolvable(reference: string, localUuid: string, hosts: seq<Host>) {
    forall i :: 0 <= i < |hosts| ==> Harmless(reference, localUuid, hosts[i])
  }

  function TextOf(reference: string, localUuid: string): Host -> seq<string> {
    h => if ActivePeer(h, localUuid) && Resolve(reference, h.labels).Ok? then [Resolve(reference, h.labels).value] else []
  }

  /** The subnets of the active peers, as written in their labels. */
  function Texts(reference: string, localUuid: string, hosts: seq<Host>): seq<string> {
    FlatMap(hosts, TextOf(reference, localUuid))
  }

  function Prefixes(texts: seq<string>): (r: seq<Prefix>)
    ensures |r| == |texts|
  {
    seq(|texts|, i requires 0 <= i < |texts| => Subnet(texts[i]))
  }

  /** No two of the prefixes share an address. */
  ghost predicate PairwiseDisjoint(ps: seq<Prefix>) {
    forall i, j :: 0 <= i < j < |ps| ==> Disjoint(ps[i], ps[j])
  }

  ghost predicate Accepts(reference: string, localUuid: string, localSubnet: string, hosts: seq<Host>) {
    !IsReference(reference) ||
    (ParsePrefix4(localSubnet).Some? && Separable(reference, localUuid, localSubnet, hosts))
  }

  ghost predicate Separable(reference: string, localUuid: string, localSubnet: string, hosts: seq<Host>) {
    AllResolvable(reference, localUuid, hosts) && Scanned(localSubnet, Texts(reference, localUuid, hosts))
  }

  ghost predicate Scanned(localSubnet: string, peers: seq<string>) {
    PairwiseDisjoint(Prefixes([localSubnet] + peers))
  }

  ghost function Expected(reference: string, localUuid: string, localSubnet: string, hosts: seq<Host>): Result<seq<string>> {
    if !Accepts(reference, localUuid, localSubnet, hosts) then Err
    else if !IsReference(reference) then Ok([])
    else Ok(Sort(Texts(reference, localUuid, hosts)))
  }

  // --- the algorithm ------------------------------------------------------------

  method OverlapsAny(seen: seq<Prefix>, peer: Prefix) returns (found: bool, at: nat)
    ensures found ==> at < |seen| && Overlaps(seen[at], peer)
    ensures !found ==> forall j :: 0 <= j < |seen| ==> Disjoint(seen[j], peer)
  {
    for j := 0 to |seen|
      invariant forall k :: 0 <= k < j ==> Disjoint(seen[k], peer)
    {
      if Contains(seen[j], peer.addr) || Contains(peer, seen[j].addr) {
        return true, j;
      }
      OverlapIsExact(seen[j], peer);
    }
    return false, 0;
  }

  lemma OneMoreText(reference: string, localUuid: string, hosts: seq<Host>, i: nat)
    requires i < |hosts|
    ensures Texts(reference, localUuid, hosts[..i + 1])
         == Texts(reference, localUuid, hosts[..i]) + TextOf(reference, localUuid)(hosts[i])
    ensures !ActivePeer(hosts[i], localUuid) ==> Texts(reference, localUuid, hosts[..i + 1]) == Texts(reference, localUuid, hosts[..i])
  {
    assert hosts[..i + 1][..i] == hosts[..i];
  }

  predicate Harmless(reference: string, localUuid: string, h: Host) {
    ActivePeer(h, localUuid) ==> Resolvable(reference, h)
  }

  lemma OneMoreHost(reference: string, localUuid: string, hosts: seq<Host>, i: nat)
    requires i < |hosts|
    ensures AllResolvable(reference, localUuid, hosts[..i + 1]) <==>
      AllResolvable(reference, localUuid, hosts[..i]) && Harmless(reference, localUuid, hosts[i])
    ensures AllResolvable(reference, localUuid, hosts) ==> AllResolvable(reference, localUuid, hosts[..i + 1])
  {
    var some, more := hosts[..i], hosts[..i + 1];
    assert forall j :: 0 <= j < i ==> more[j] == some[j] == hosts[j];
    assert more[i] == hosts[i];
  }

  lemma OneMorePrefix(localSubnet: string, peers: seq<string>, seen: seq<Prefix>, text: string)
    requires Scanned(localSubnet, peers) && seen == Prefixes([localSubnet] + peers)
    ensures Prefixes([localSubnet] + (peers + [text])) == seen + [Subnet(text)]
    ensures (forall j :: 0 <= j < |seen| ==> Disjoint(seen[j], Subnet(text))) ==> Scanned(localSubnet, peers + [text])
    ensures forall j :: 0 <= j < |seen| && Overlaps(seen[j], Subnet(text)) ==> !Scanned(localSubnet, peers + [text])
  {
    var grown := Prefixes([localSubnet] + (peers + [text]));
    assert grown == seen + [Subnet(text)];
    forall j | 0 <= j < |seen| && Overlaps(seen[j], Subnet(text)) ensures !Scanned(localSubnet, peers + [text]) {
      OverlapIsExact(seen[j], Subnet(text));
      assert grown[j] == seen[j] && grown[|seen|] == Subnet(text);
    }
  }

  lemma ScannedPrefix(localSubnet: string, some: seq<string>, all: seq<string>)
    requires some <= all && Scanned(localSubnet, all)
    ensures Scanned(localSubnet, some)
  {
    var a, b := Prefixes([localSubnet] + some), Prefixes([localSubnet] + all);
    assert forall i :: 0 <= i < |a| ==> a[i] == b[i];
  }

  lemma SeparablePrefix(reference: string, localUuid: string, localSubnet: string, hosts: seq<Host>, i: nat)
    requires i < |hosts| && Separable(reference, localUuid, localSubnet, hosts)
    ensures Separable(reference, localUuid, localSubnet, hosts[..i + 1])
  {
    FlatMapExtends(hosts, TextOf(reference, localUuid), i + 1);
    ScannedPrefix(localSubnet, Texts(reference, localUuid, hosts[..i + 1]), Texts(reference, localUuid, hosts));
    OneMoreHost(reference, localUuid, hosts, i);
  }

  /** One host of the loop: the peers with it added, unless it must be rejected. */
  method ScanHost(reference: string, localUuid: string, localSubnet: string, hosts: seq<Host>, i: nat, peers: seq<string>, seen: seq<Prefix>)
    returns (ok: bool, peers': seq<string>, seen': seq<Prefix>)
    requires i < |hosts| && Separable(reference, localUuid, localSubnet, hosts[..i])
    requires peers == Texts(reference, localUuid, hosts[..i]) && seen == Prefixes([localSubnet] + peers)
    ensures ok <==> Separable(reference, localUuid, localSubnet, hosts[..i + 1])
    ensures ok ==> peers' == Texts(reference, localUuid, hosts[..i + 1]) && seen' == Prefixes([localSubnet] + peers')
  {
    var host := hosts[i];
    OneMoreHost(reference, localUuid, hosts, i);
    OneMoreText(reference, localUuid, hosts, i);
    if host.uuid == localUuid || host.state != "active" { return true, peers, seen; }
    if !Resolvable(reference, host) { return false, [], []; }
    var value := Resolve(reference, host.labels).value;
    OneMorePrefix(localSubnet, peers, seen, value);
    var found, at := OverlapsAny(seen, Subnet(value));
    if found { return false, [], []; }
    return true, peers + [value], seen + [Subnet(value)];
  }

  method ScanHosts(reference: string, localUuid: string, localSubnet: string, hosts: seq<Host>)
    returns (ok: bool, peers: seq<string>)
    ensures ok <==> Separable(reference, localUuid, localSubnet, hosts)
    ensures ok ==> peers == Texts(reference, localUuid, hosts)
  {
    peers := [];
    var seen := [Subnet(localSubnet)];
    for i := 0 to |hosts|
      invariant Separable(reference, localUuid, localSubnet, hosts[..i])
      invariant peers == Texts(reference, localUuid, hosts[..i]) && seen == Prefixes([localSubnet] + peers)
    {
      var kept;
      kept, peers, seen := ScanHost(reference, localUuid, localSubnet, hosts, i, peers, seen);
      if !kept {
        if Separable(reference, localUuid, localSubnet, hosts) { SeparablePrefix(reference, localUuid, localSubnet, hosts, i); }
        return false, [];
      }
    }
    assert hosts[..|hosts|] == hosts;
    ok := true;
  }

  /** `PeerSubnets`: the sorted peers, or an error exactly when some active peer
      has no IPv4 subnet or two subnets share an address. */
  method PeerSubnetsOf(reference: string, localUuid: string, localSubnet: string, hosts: seq<Host>)
    returns (r: Result<seq<string>>)
    ensures r == Expected(reference, localUuid, localSubnet, hosts)
  {
    if !IsReference(reference) { return Ok([]); }
    if ParsePrefix4(localSubnet).None? { return Err; }
    var ok, peers := ScanHosts(reference, localUuid, localSubnet, hosts);
    r := if ok then Ok(Sort(peers)) else Err;
  }

  // --- the result does not depend on the order of hosts ------------------------

  /** Pairwise disjointness in terms of the elements alone: none twice, no two
      different ones overlapping. */
  ghost predicate DisjointElements(ts: multiset<string>) {
    (forall x :: x in ts ==> ts[x] == 1) &&
    (forall x, y :: x in ts && y in ts && x != y ==> Disjoint(Subnet(x), Subnet(y)))
  }

  lemma DisjointPair(ps: seq<Prefix>, i: nat, j: nat)
    requires PairwiseDisjoint(ps) && i < |ps| && j < |ps| && i != j
    ensures Disjoint(ps[i], ps[j]) && ps[i] != ps[j]
  {
    assert Disjoint(ps[if i < j then i else j], ps[if i < j then j else i]);
    OverlapIsExact(ps[i], ps[j]);
  }

  lemma Multiplicity(xs: seq<string>, i: nat, j: nat)
    requires i < j < |xs| && xs[i] == xs[j]
    ensures multiset(xs)[xs[i]] >= 2
  {
    assert xs == xs[..j] + [xs[j]] + xs[j + 1..];
    assert xs[i] in multiset(xs[..j]);
  }

  lemma {:induction false} OnceEach(xs: seq<string>, x: string)
    requires forall i, j :: 0 <= i < j < |xs| ==> xs[i] != xs[j]
    ensures multiset(xs)[x] <= 1
  {
    if xs != [] {
      var init := xs[..|xs| - 1];
      assert xs == init + [xs[|xs| - 1]];
      OnceEach(init, x);
      assert x == xs[|xs| - 1] ==> x !in init;
    }
  }

  lemma DisjointByElements(xs: seq<string>)
    ensures PairwiseDisjoint(Prefixes(xs)) <==> DisjointElements(multiset(xs))
  {
    var ps := Prefixes(xs);
    if PairwiseDisjoint(ps) {
      forall i, j | 0 <= i < j < |xs| ensures xs[i] != xs[j] { DisjointPair(ps, i, j); }
      forall x | x in multiset(xs) ensures multiset(xs)[x] == 1 { OnceEach(xs, x); }
      forall x, y | x in multiset(xs) && y in multiset(xs) && x != y ensures Disjoint(Subnet(x), Subnet(y)) {
        var i :| 0 <= i < |xs| && xs[i] == x;
        var j :| 0 <= j < |xs| && xs[j] == y;
        DisjointPair(ps, i, j);
      }
    }
    if DisjointElements(multiset(xs)) {
      forall i, j | 0 <= i < j < |xs| ensures Disjoint(ps[i], ps[j]) {
        if xs[i] == xs[j] { Multiplicity(xs, i, j); }
        assert xs[i] in multiset(xs) && xs[j] in multiset(xs);
      }
    }
  }

  lemma SeparableIgnoresOrder(reference: string, localUuid: string, localSubnet: string, a: seq<Host>, b: seq<Host>)
    requires multiset(a) == multiset(b) && Separable(reference, localUuid, localSubnet, a)
    ensures Separable(reference, localUuid, localSubnet, b)
  {
    forall i | 0 <= i < |b| ensures Harmless(reference, localUuid, b[i]) {
      assert b[i] in multiset(a);
      var j :| 0 <= j < |a| && a[j] == b[i];
    }
    var ta, tb := Texts(reference, localUuid, a), Texts(reference, localUuid, b);
    FlatMapPermutes(a, b, TextOf(reference, localUuid));
    DisjointByElements([localSubnet] + ta);
    DisjointByElements([localSubnet] + tb);
    assert multiset([localSubnet] + ta) == multiset([localSubnet] + tb);
  }

  /** Listing the hosts in another order changes neither success nor the result. */
  lemma ExpectedIgnoresOrder(reference: string, localUuid: string, localSubnet: string, a: seq<Host>, b: seq<Host>)
    requires multiset(a) == multiset(b)
    ensures Expected(reference, localUuid, localSubnet, a) == Expected(reference, localUuid, localSubnet, b)
  {
    FlatMapPermutes(a, b, TextOf(reference, localUuid));
    SortIgnoresOrder(Texts(reference, localUuid, a), Texts(reference, localUuid, b));
    if Separable(reference, localUuid, localSubnet, a) { SeparableIgnoresOrder(reference, localUuid, localSubnet, a, b); }
    if Separable(reference, localUuid, localSubnet, b) { SeparableIgnoresOrder(reference, localUuid, localSubnet, b, a); }
  }

  /** Every peer of an accepted list is disjoint from the local subnet. */
  lemma PeersAvoidLocal(reference: string, localUuid: string, localSubnet: string, hosts: seq<Host>, peer: string)
    requires IsReference(reference)
    requires Expected(reference, localUuid, localSubnet, hosts).Ok?
    requires peer in Expected(reference, localUuid, localSubnet, hosts).value
    ensures Disjoint(Subnet(localSubnet), Subnet(peer))
  {
    var texts := Texts(reference, localUuid, hosts);
    SortSorts(texts);
    assert peer in multiset(Sort(texts));
    var j :| 0 <= j < |texts| && texts[j] == peer;
    var ps := Prefixes([localSubnet] + texts);
    assert ps[0] == Subnet(localSubnet) && ps[j + 1] == Subnet(peer);
    DisjointPair(ps, 0, j + 1);
  }
}
