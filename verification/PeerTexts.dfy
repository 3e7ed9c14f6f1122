/** What references, labels and hosts must look like for the peers to be accepted,
    in terms of the texts and the list of hosts alone. */
module PeerTexts {
  import opened StringOrder
  import opened Lists
  import opened Wrappers
  import opened Cidr
  import opened CidrText
  import opened PeerSubnets

  // --- white space -----------------------------------------------------------

  /** What a label name must not hold is trimmed at its ends; no character of an
      IPv4 subnet is. */
  lemma SpacesInFull(c: char)
    ensures IsSeparator(c) <==> c == ' ' || c == '\t' || c == '\r' || c == '\n'
    ensures IsSeparator(c) ==> IsSpace(c)
    ensures '0' <= c <= '9' || c == '.' || c == '/' ==> !IsSpace(c)
  {
    assert " \t\r\n" == [' ', '\t', '\r', '\n'];
  }

  predicate Blank(s: string) { forall i :: 0 <= i < |s| ==> IsSpace(s[i]) }

  predicate Trimmed(s: string) { s != "" ==> !IsSpace(s[0]) && !IsSpace(s[|s| - 1]) }

  lemma {:induction false} TrimLeftDrops(pre: string, core: string)
    requires Blank(pre) && (core != "" ==> !IsSpace(core[0]))
    ensures TrimLeft(pre + core) == core
  {
    if pre == "" {
      assert pre + core == core;
    } else {
      TrimLeftDrops(pre[1..], core);
      assert (pre + core)[1..] == pre[1..] + core;
    }
  }

  lemma {:induction false} TrimRightDrops(text: string, post: string)
    requires Blank(post)
    ensures TrimSpace(text + post) == TrimSpace(text)
  {
    if post == "" {
      assert text + post == text;
    } else {
      var last := |post| - 1;
      TrimRightDrops(text, post[..last]);
      assert (text + post)[..|text + post| - 1] == text + post[..last];
    }
  }

  lemma {:induction false} BlankTrimsToNothing(s: string)
    requires Blank(s)
    ensures TrimSpace(s) == ""
  {
    TrimRightDrops("", s);
    assert "" + s == s;
  }

  /** Blank ends are dropped and nothing else. */
  lemma TrimExactly(pre: string, core: string, post: string)
    requires Blank(pre) && Blank(post) && Trimmed(core)
    ensures TrimSpace(pre + core + post) == core
  {
    TrimRightDrops(pre + core, post);
    if core == "" {
      assert pre + core == pre;
      BlankTrimsToNothing(pre);
    } else {
      assert (pre + core)[|pre + core| - 1] == core[|core| - 1];
      TrimLeftDrops(pre, core);
    }
  }

  lemma {:induction false} TrimLeftSplits(s: string) returns (pre: string)
    ensures Blank(pre) && s == pre + TrimLeft(s) && (TrimLeft(s) != "" ==> !IsSpace(TrimLeft(s)[0]))
  {
    pre := "";
    if s != "" && IsSpace(s[0]) {
      var more := TrimLeftSplits(s[1..]);
      pre := [s[0]] + more;
      assert s == [s[0]] + s[1..];
    }
  }

  lemma {:induction false} TrimSplits(s: string) returns (pre: string, post: string)
    ensures Blank(pre) && Blank(post) && s == pre + TrimSpace(s) + post && Trimmed(TrimSpace(s))
  {
    if s != "" && IsSpace(s[|s| - 1]) {
      var front := s[..|s| - 1];
      var more;
      pre, more := TrimSplits(front);
      post := more + [s[|s| - 1]];
      assert s == front + [s[|s| - 1]];
      assert s == pre + TrimSpace(s) + post;
    } else {
      pre := TrimLeftSplits(s);
      post := "";
      var core := TrimLeft(s);
      if core != "" { assert s[|s| - 1] == core[|core| - 1]; }
    }
  }

  // --- references ------------------------------------------------------------

  predicate LabelName(key: string) {
    key != "" && Trimmed(key) && ' ' !in key && '\t' !in key && '\r' !in key && '\n' !in key
  }

  /** A subnet with its own network address; the mask may have leading zeros. */
  predicate NetworkText(text: string, a: Address, mask: string) {
    text == ShowAddress(a) + "/" + mask && AllDigits(mask) && Decimal(mask) <= 32 && a % Block(Decimal(mask)) == 0
  }

  lemma NetworkTextIsCanonical(text: string, a: Address, mask: string)
    requires NetworkText(text, a, mask)
    ensures Canonical(text)
  {
    AddressHasNoSlash(a);
    SplitTwo(ShowAddress(a), mask, '/');
    AddressExactly(ShowAddress(a), a);
  }

  lemma CanonicalIsNetworkText(text: string) returns (a: Address, mask: string)
    requires Canonical(text)
    ensures NetworkText(text, a, mask)
  {
    var halves := Split(text, '/');
    SplitJoined(text, '/');
    JoinedTwo(halves, '/');
    a, mask := ParseAddress4(halves[0]).value, halves[1];
    AddressExactly(halves[0], a);
  }

  lemma EmptyIsNoNetwork()
    ensures TrimSpace("") == "" && !Canonical("")
  {
    assert Split("", '/') == [""];
  }

  lemma NetworkTextIsTrimmed(text: string, a: Address, mask: string)
    requires NetworkText(text, a, mask)
    ensures Trimmed(text)
  {
    ShowIsDecimal(a / 0x100_0000);
    assert text[0] == Show(a / 0x100_0000)[0] && text[|text| - 1] == mask[|mask| - 1];
  }

  /** The label a reference names, with blank ends around name and value, resolves to
      its value when that is a network's own address and mask. */
  lemma ResolveReads(pre: string, key: string, post: string, labels: map<string, string>,
                     before: string, text: string, after: string, a: Address, mask: string)
    requires Blank(pre) && Blank(post) && LabelName(key)
    requires key in labels && labels[key] == before + text + after && Blank(before) && Blank(after)
    requires NetworkText(text, a, mask)
    ensures Resolve("__host_label__:" + (pre + key + post), labels) == Ok(text)
  {
    var value := "__host_label__:" + (pre + key + post);
    assert value[|REFERENCE_PREFIX|..] == pre + key + post;
    TrimExactly(pre, key, post);
    NetworkTextIsTrimmed(text, a, mask);
    TrimExactly(before, text, after);
    NetworkTextIsCanonical(text, a, mask);
  }

  /** Nothing else resolves. */
  lemma ResolveMeans(value: string, labels: map<string, string>)
    returns (pre: string, key: string, post: string, before: string, after: string, a: Address, mask: string)
    requires "__host_label__:" <= value && Resolve(value, labels).Ok?
    ensures Blank(pre) && Blank(post) && LabelName(key) && value == "__host_label__:" + (pre + key + post)
    ensures key in labels && Blank(before) && Blank(after) && labels[key] == before + Resolve(value, labels).value + after
    ensures NetworkText(Resolve(value, labels).value, a, mask)
  {
    var rest := value[|REFERENCE_PREFIX|..];
    assert value == REFERENCE_PREFIX + rest;
    key := TrimSpace(rest);
    pre, post := TrimSplits(rest);
    var text := Resolve(value, labels).value;
    EmptyIsNoNetwork();
    before, after := TrimSplits(labels[key]);
    a, mask := CanonicalIsNetworkText(text);
  }

  /** Values that are no references stay as they are. */
  lemma LiteralsStay(value: string, labels: map<string, string>)
    ensures !("__host_label__:" <= value) ==> Resolve(value, labels) == Ok(value)
  {
  }

  // --- hosts -----------------------------------------------------------------

  /** Another host that is active, and the text its label gives. */
  predicate PeerText(reference: string, localUuid: string, h: Host, text: string) {
    h.uuid != localUuid && h.state == "active" && Resolve(reference, h.labels) == Ok(text)
  }

  ghost predicate SomePeer(reference: string, localUuid: string, hosts: seq<Host>, text: string) {
    exists i :: 0 <= i < |hosts| && PeerText(reference, localUuid, hosts[i], text)
  }

  lemma SomePeerInMore(reference: string, localUuid: string, hosts: seq<Host>, h: Host, text: string)
    ensures SomePeer(reference, localUuid, hosts + [h], text) <==>
            SomePeer(reference, localUuid, hosts, text) || PeerText(reference, localUuid, h, text)
  {
    var more := hosts + [h];
    assert more[|hosts|] == h;
    if i :| 0 <= i < |hosts| && PeerText(reference, localUuid, hosts[i], text) { assert more[i] == hosts[i]; }
  }

  lemma {:induction false} TextsExactly(reference: string, localUuid: string, hosts: seq<Host>, text: string)
    ensures text in Texts(reference, localUuid, hosts) <==> SomePeer(reference, localUuid, hosts, text)
  {
    if hosts != [] {
      var init, last := hosts[..|hosts| - 1], hosts[|hosts| - 1];
      TextsExactly(reference, localUuid, init, text);
      SomePeerInMore(reference, localUuid, init, last, text);
      assert hosts == init + [last];
    }
  }

  /** The peers are the texts of the other active hosts, in order. */
  lemma PeersExactly(reference: string, localUuid: string, localSubnet: string, hosts: seq<Host>, text: string)
    requires "__host_label__:" <= reference && Expected(reference, localUuid, localSubnet, hosts).Ok?
    ensures var peers := Expected(reference, localUuid, localSubnet, hosts).value;
      Ascending(peers) &&
      (text in peers <==> SomePeer(reference, localUuid, hosts, text))
  {
    var texts := Texts(reference, localUuid, hosts);
    SortSorts(texts);
    TextsExactly(reference, localUuid, hosts, text);
    assert text in multiset(Sort(texts)) <==> text in multiset(texts);
  }

  /** A host that takes part: another one, and active. */
  predicate TakesPart(localUuid: string, h: Host) { h.uuid != localUuid && h.state == "active" }

  /** Its label gives an IPv4 prefix. */
  predicate HasSubnet(reference: string, h: Host) {
    Resolve(reference, h.labels).Ok? && ParsePrefix4(Resolve(reference, h.labels).value).Some?
  }

  function SubnetOf(reference: string, h: Host): Prefix {
    match Resolve(reference, h.labels)
    case Ok(text) => Subnet(text)
    case Err => Prefix(0, 0)
  }

  /** Every participant has a subnet, apart from the local one and from all before it. */
  ghost predicate HostsApart(reference: string, localUuid: string, localSubnet: string, hosts: seq<Host>) {
    forall i :: 0 <= i < |hosts| && TakesPart(localUuid, hosts[i]) ==>
      HasSubnet(reference, hosts[i]) && Disjoint(Subnet(localSubnet), SubnetOf(reference, hosts[i])) &&
      forall j :: 0 <= j < i && TakesPart(localUuid, hosts[j]) ==>
        Disjoint(SubnetOf(reference, hosts[j]), SubnetOf(reference, hosts[i]))
  }

  /** One more text is apart from all before it exactly when it is apart from the local
      subnet and from each of them. */
  lemma OneMoreApart(localSubnet: string, peers: seq<string>, text: string)
    ensures Scanned(localSubnet, peers + [text]) <==>
      Scanned(localSubnet, peers) && Disjoint(Subnet(localSubnet), Subnet(text)) &&
      forall x :: x in peers ==> Disjoint(Subnet(x), Subnet(text))
  {
    var before, after := Prefixes([localSubnet] + peers), Prefixes([localSubnet] + (peers + [text]));
    assert after == before + [Subnet(text)];
    assert before[0] == Subnet(localSubnet) && forall i :: 0 <= i < |peers| ==> before[i + 1] == Subnet(peers[i]);
    if Scanned(localSubnet, peers + [text]) {
      ScannedPrefix(localSubnet, peers, peers + [text]);
      assert Disjoint(after[0], after[|before|]);
      forall x | x in peers ensures Disjoint(Subnet(x), Subnet(text)) {
        var i :| 0 <= i < |peers| && peers[i] == x;
        assert Disjoint(after[i + 1], after[|before|]);
      }
    }
    if Scanned(localSubnet, peers) && Disjoint(Subnet(localSubnet), Subnet(text)) && (forall x :: x in peers ==> Disjoint(Subnet(x), Subnet(text))) {
      forall i, j | 0 <= i < j < |after| ensures Disjoint(after[i], after[j]) {
        if j == |before| && i > 0 { assert peers[i - 1] in peers && after[i] == Subnet(peers[i - 1]); }
      }
    }
  }

  /** What one more host changes. */
  ghost predicate FitsBehind(reference: string, localUuid: string, localSubnet: string, hosts: seq<Host>, h: Host) {
    TakesPart(localUuid, h) ==>
      HasSubnet(reference, h) && Disjoint(Subnet(localSubnet), SubnetOf(reference, h)) &&
      forall j :: 0 <= j < |hosts| && TakesPart(localUuid, hosts[j]) ==>
        Disjoint(SubnetOf(reference, hosts[j]), SubnetOf(reference, h))
  }

  lemma OneMoreHostApart(reference: string, localUuid: string, localSubnet: string, hosts: seq<Host>, h: Host)
    ensures HostsApart(reference, localUuid, localSubnet, hosts + [h]) <==>
      HostsApart(reference, localUuid, localSubnet, hosts) && FitsBehind(reference, localUuid, localSubnet, hosts, h)
  {
    var more := hosts + [h];
    assert more[|hosts|] == h && forall i :: 0 <= i < |hosts| ==> more[i] == hosts[i];
  }

  lemma LastHostApart(reference: string, localUuid: string, localSubnet: string, init: seq<Host>, h: Host)
    requires TakesPart(localUuid, h) && Resolve(reference, h.labels).Ok?
    requires AllResolvable(reference, localUuid, init)
    ensures var texts := Texts(reference, localUuid, init);
      Scanned(localSubnet, texts + [Resolve(reference, h.labels).value]) <==>
      Scanned(localSubnet, texts) && Disjoint(Subnet(localSubnet), SubnetOf(reference, h)) &&
      forall j :: 0 <= j < |init| && TakesPart(localUuid, init[j]) ==>
        Disjoint(SubnetOf(reference, init[j]), SubnetOf(reference, h))
  {
    var texts, text := Texts(reference, localUuid, init), Resolve(reference, h.labels).value;
    OneMoreApart(localSubnet, texts, text);
    forall j | 0 <= j < |init| && TakesPart(localUuid, init[j])
      ensures Resolve(reference, init[j].labels).Ok? && Resolve(reference, init[j].labels).value in texts
    {
      assert Harmless(reference, localUuid, init[j]);
      TextsExactly(reference, localUuid, init, Resolve(reference, init[j].labels).value);
      assert PeerText(reference, localUuid, init[j], Resolve(reference, init[j].labels).value);
    }
    forall x | x in texts ensures exists j :: 0 <= j < |init| && PeerText(reference, localUuid, init[j], x) {
      TextsExactly(reference, localUuid, init, x);
    }
  }

  lemma SeparableStep(reference: string, localUuid: string, localSubnet: string, hosts: seq<Host>, n: nat)
    requires n < |hosts| && AllResolvable(reference, localUuid, hosts[..n])
    ensures Separable(reference, localUuid, localSubnet, hosts[..n + 1]) <==>
      Separable(reference, localUuid, localSubnet, hosts[..n]) &&
      FitsBehind(reference, localUuid, localSubnet, hosts[..n], hosts[n])
  {
    OneMoreHost(reference, localUuid, hosts, n);
    OneMoreText(reference, localUuid, hosts, n);
    if TakesPart(localUuid, hosts[n]) && Resolve(reference, hosts[n].labels).Ok? {
      LastHostApart(reference, localUuid, localSubnet, hosts[..n], hosts[n]);
    }
  }

  lemma {:induction false} SeparableExactly(reference: string, localUuid: string, localSubnet: string, hosts: seq<Host>, n: nat)
    requires n <= |hosts|
    ensures Separable(reference, localUuid, localSubnet, hosts[..n]) <==> HostsApart(reference, localUuid, localSubnet, hosts[..n])
  {
    if n == 0 {
      assert Prefixes([localSubnet] + Texts(reference, localUuid, [])) == [Subnet(localSubnet)];
    } else {
      SeparableExactly(reference, localUuid, localSubnet, hosts, n - 1);
      assert hosts[..n] == hosts[..n - 1] + [hosts[n - 1]];
      OneMoreHostApart(reference, localUuid, localSubnet, hosts[..n - 1], hosts[n - 1]);
      if AllResolvable(reference, localUuid, hosts[..n - 1]) {
        SeparableStep(reference, localUuid, localSubnet, hosts, n - 1);
      } else {
        OneMoreHost(reference, localUuid, hosts, n - 1);
      }
    }
  }

  /** Success means exactly: no reference at all, or an IPv4 local subnet and participants
      with IPv4 subnets that share no address with it or with each other. */
  lemma AcceptedExactly(reference: string, localUuid: string, localSubnet: string, hosts: seq<Host>)
    ensures Expected(reference, localUuid, localSubnet, hosts).Ok? <==>
      !("__host_label__:" <= reference) ||
      (ParsePrefix4(localSubnet).Some? && HostsApart(reference, localUuid, localSubnet, hosts))
  {
    assert hosts[..|hosts|] == hosts;
    SeparableExactly(reference, localUuid, localSubnet, hosts, |hosts|);
  }
}
