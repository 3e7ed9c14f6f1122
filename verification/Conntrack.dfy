/** Removing connection tracking entries that point at a container's former address. */
module Conntrack {
  import opened Wrappers
  import opened Cidr
  import CidrText

  /** The fields the listing is parsed into. */
  datatype Entry = Entry(
    proto: string, origSrc: string, origDst: string, origSport: string, origDport: string,
    replySrc: string, replyDst: string, replySport: string, replyDport: string)

  /** One tracked connection; the kernel knows how it was translated. */
  datatype Flow = Flow(id: nat, entry: Entry, dnat: bool, snat: bool)

  /** A container on some host: published ports as `ip:port:target/proto` texts. */
  datatype Container = Container(host: string, primaryIp: string, ports: seq<string>)

  // --- published ports -------------------------------------------------------

  function Key(ip: string, port: string, proto: string): string {
    ip + ":" + port + "/" + proto
  }

  /** The key a port text publishes; texts without three parts are skipped. */
  function PublishedKey(port: string): Option<string> {
    var splits := Split(port, ':');
    if |splits| != 3 then None
    else
      var parts := Split(splits[2], '/');
      Some(Key(splits[0], splits[1], if |parts| == 2 then parts[1] else "tcp"))
  }

  ghost predicate Publishes(c: Container, host: string, key: string) {
    c.host == host && PublishesAmong(c.ports, |c.ports|, key)
  }

  ghost predicate LastPublisher(containers: seq<Container>, host: string, key: string, i: nat) {
    i < |containers| && Publishes(containers[i], host, key) &&
    forall k :: i < k < |containers| ==> !Publishes(containers[k], host, key)
  }

  /** The last container of the list that publishes the key owns it. */
  ghost predicate OwnerIs(owner: Option<string>, containers: seq<Container>, host: string, key: string) {
    match owner
    case Some(ip) => exists i: nat :: LastPublisher(containers, host, key, i) && containers[i].primaryIp == ip
    case None => forall i :: 0 <= i < |containers| ==> !Publishes(containers[i], host, key)
  }

  function Owner(owners: map<string, string>, key: string): Option<string> {
    if key in owners then Some(owners[key]) else None
  }

  ghost predicate Owners(owners: map<string, string>, containers: seq<Container>, host: string) {
    forall key :: OwnerIs(Owner(owners, key), containers, host, key)
  }

  ghost predicate PublishesAmong(ports: seq<string>, n: nat, key: string) {
    exists j :: 0 <= j < n && j < |ports| && PublishedKey(ports[j]) == Some(key)
  }

  lemma PublishedNext(ports: seq<string>, n: nat, key: string)
    requires n < |ports|
    ensures PublishesAmong(ports, n + 1, key) <==> PublishesAmong(ports, n, key) || PublishedKey(ports[n]) == Some(key)
  {
  }

  method AddContainer(c: Container, host: string, owners: map<string, string>) returns (next: map<string, string>)
    ensures forall key :: Owner(next, key) == if Publishes(c, host, key) then Some(c.primaryIp) else Owner(owners, key)
  {
    next := owners;
    if c.host != host { return; }
    for j := 0 to |c.ports|
      invariant forall key ::
        Owner(next, key) == if PublishesAmong(c.ports, j, key) then Some(c.primaryIp) else Owner(owners, key)
    {
      forall key ensures PublishesAmong(c.ports, j + 1, key) <==> PublishesAmong(c.ports, j, key) || PublishedKey(c.ports[j]) == Some(key) {
        PublishedNext(c.ports, j, key);
      }
      var key := PublishedKey(c.ports[j]);
      if key.Some? { next := next[key.value := c.primaryIp]; }
    }
  }

  lemma OneMoreContainer(was: Option<string>, containers: seq<Container>, c: Container, host: string, key: string)
    requires OwnerIs(was, containers, host, key)
    ensures OwnerIs(if Publishes(c, host, key) then Some(c.primaryIp) else was, containers + [c], host, key)
  {
    var more := containers + [c];
    if Publishes(c, host, key) {
      assert LastPublisher(more, host, key, |containers|);
    } else if was.Some? {
      var i: nat :| LastPublisher(containers, host, key, i) && containers[i].primaryIp == was.value;
      assert LastPublisher(more, host, key, i);
    }
  }

  method BuildContainersMap(containers: seq<Container>, host: string) returns (owners: map<string, string>)
    ensures Owners(owners, containers, host)
  {
    owners := map[];
    for i := 0 to |containers|
      invariant Owners(owners, containers[..i], host)
    {
      var before := owners;
      owners := AddContainer(containers[i], host, before);
      forall key ensures OwnerIs(Owner(owners, key), containers[..i + 1], host, key) {
        OneMoreContainer(Owner(before, key), containers[..i], containers[i], host, key);
        assert containers[..i + 1] == containers[..i] + [containers[i]];
      }
    }
    assert containers[..|containers|] == containers;
  }

  // --- stale entries ---------------------------------------------------------

  /** The address that should serve a host address and port, when one is known. */
  function Expected(owners: map<string, string>, ip: string, port: string, proto: string): Option<string> {
    if Key(ip, port, proto) in owners then Some(owners[Key(ip, port, proto)])
    else if Key("0.0.0.0", port, proto) in owners then Some(owners[Key("0.0.0.0", port, proto)])
    else None
  }

  predicate Differs(expected: Option<string>, actual: string) {
    expected.Some? && expected.value != "" && actual != expected.value
  }

  predicate StaleDnat(owners: map<string, string>, e: Entry) {
    Differs(Expected(owners, e.origDst, e.origDport, e.proto), e.replySrc)
  }

  predicate StaleSnat(owners: map<string, string>, e: Entry) {
    Differs(Expected(owners, e.replyDst, e.replyDport, e.proto), e.origSrc)
  }

  /** The fields `conntrack --delete` is given; no source port and no reply port. */
  predicate SamePattern(a: Entry, b: Entry) {
    a.proto == b.proto && a.origSrc == b.origSrc && a.origDst == b.origDst && a.origDport == b.origDport &&
    a.replySrc == b.replySrc && a.replyDst == b.replyDst
  }

  /** Entries that differ only in the three ports the command is not given are
      deleted together, and no others. */
  lemma PatternInFull(a: Entry, b: Entry)
    ensures SamePattern(a, b) <==> a.(origSport := b.origSport, replySport := b.replySport, replyDport := b.replyDport) == b
  {
  }

  function DeleteFrom(table: set<Flow>, e: Entry): set<Flow> {
    set f | f in table && !SamePattern(f.entry, e)
  }

  /** What the deletes for the given entries leave, in whatever order they run. */
  function DeleteAll(table: set<Flow>, entries: set<Entry>): set<Flow> {
    set f | f in table && !exists e :: e in entries && SamePattern(f.entry, e)
  }

  function DnatEntries(table: set<Flow>): set<Entry> {
    set f | f in table && f.dnat :: f.entry
  }

  function SnatEntries(table: set<Flow>): set<Entry> {
    set f | f in table && f.snat :: f.entry
  }

  function StaleDnatEntries(table: set<Flow>, owners: map<string, string>): set<Entry> {
    set e | e in DnatEntries(table) && StaleDnat(owners, e)
  }

  function StaleSnatEntries(table: set<Flow>, owners: map<string, string>): set<Entry> {
    set e | e in SnatEntries(table) && StaleSnat(owners, e)
  }

  class Kernel {
    var table: set<Flow>
    ghost var faults: nat

    constructor (table: set<Flow>)
      ensures this.table == table && faults == 0
    {
      this.table, faults := table, 0;
    }

    /** The translated entries, in any order. */
    method List(entries: set<Entry>) returns (ok: bool, list: seq<Entry>)
      modifies this`faults
      ensures faults >= old(faults) && (faults == old(faults) ==> ok)
      ensures ok ==> forall e :: e in list <==> e in entries
    {
      list := [];
      ok := *;
      if !ok {
        faults := faults + 1;
        return;
      }
      var todo := entries;
      while todo != {}
        invariant todo <= entries && forall e :: e in list <==> e in entries - todo
      {
        var e :| e in todo;
        list, todo := list + [e], todo - {e};
      }
    }

    /** Deletes every flow the pattern of `e` matches, or fails and deletes none. */
    method Delete(e: Entry) returns (ok: bool)
      modifies this
      ensures faults >= old(faults)
      ensures table == if ok then DeleteFrom(old(table), e) else old(table)
      ensures faults == old(faults) ==> ok
    {
      ok := *;
      if ok {
        table := DeleteFrom(table, e);
      } else {
        faults := faults + 1;
      }
    }
  }

  // --- the sync --------------------------------------------------------------

  /** Between nothing and everything the stale entries' patterns match is gone. */
  ghost predicate Cleaned(before: set<Flow>, after: set<Flow>, stale: set<Entry>) {
    DeleteAll(before, stale) <= after <= before
  }

  lemma DeleteOneMore(before: set<Flow>, after: set<Flow>, next: set<Flow>, stale: set<Entry>, e: Entry)
    requires Cleaned(before, after, stale) && e in stale && (next == after || next == DeleteFrom(after, e))
    ensures Cleaned(before, next, stale)
  {
  }

  /** An entry whose delete succeeded left no flow with its pattern behind. */
  ghost predicate NoneLeft(table: set<Flow>, e: Entry) {
    forall f :: f in table ==> !SamePattern(f.entry, e)
  }

  method SyncDnat(kernel: Kernel, owners: map<string, string>) returns (ok: bool)
    modifies kernel
    ensures kernel.faults >= old(kernel.faults) && (kernel.faults == old(kernel.faults) ==> ok)
    ensures Cleaned(old(kernel.table), kernel.table, StaleDnatEntries(old(kernel.table), owners))
    ensures kernel.faults == old(kernel.faults) ==>
      kernel.table == DeleteAll(old(kernel.table), StaleDnatEntries(old(kernel.table), owners))
  {
    ghost var before, stale := kernel.table, StaleDnatEntries(kernel.table, owners);
    var list;
    ok, list := kernel.List(DnatEntries(kernel.table));
    if !ok { return; }
    for i := 0 to |list|
      invariant kernel.faults >= old(kernel.faults)
      invariant Cleaned(before, kernel.table, stale)
      invariant kernel.faults == old(kernel.faults) ==>
        forall j :: 0 <= j < i && list[j] in stale ==> NoneLeft(kernel.table, list[j])
    {
      var e := list[i];
      assert e in DnatEntries(before);
      var expected := Expected(owners, e.origDst, e.origDport, e.proto);
      if expected.Some? && expected.value != "" && e.replySrc != expected.value {
        ghost var was := kernel.table;
        var deleted := kernel.Delete(e);
        DeleteOneMore(before, was, kernel.table, stale, e);
      }
    }
    if kernel.faults == old(kernel.faults) { NothingStaleLeft(before, kernel.table, stale, list); }
  }

  method SyncSnat(kernel: Kernel, owners: map<string, string>) returns (ok: bool)
    modifies kernel
    ensures kernel.faults >= old(kernel.faults) && (kernel.faults == old(kernel.faults) ==> ok)
    ensures Cleaned(old(kernel.table), kernel.table, StaleSnatEntries(old(kernel.table), owners))
    ensures kernel.faults == old(kernel.faults) ==>
      kernel.table == DeleteAll(old(kernel.table), StaleSnatEntries(old(kernel.table), owners))
  {
    ghost var before, stale := kernel.table, StaleSnatEntries(kernel.table, owners);
    var list;
    ok, list := kernel.List(SnatEntries(kernel.table));
    if !ok { return; }
    for i := 0 to |list|
      invariant kernel.faults >= old(kernel.faults)
      invariant Cleaned(before, kernel.table, stale)
      invariant kernel.faults == old(kernel.faults) ==>
        forall j :: 0 <= j < i && list[j] in stale ==> NoneLeft(kernel.table, list[j])
    {
      var e := list[i];
      assert e in SnatEntries(before);
      var expected := Expected(owners, e.replyDst, e.replyDport, e.proto);
      if expected.Some? && expected.value != "" && e.origSrc != expected.value {
        ghost var was := kernel.table;
        var deleted := kernel.Delete(e);
        DeleteOneMore(before, was, kernel.table, stale, e);
      }
    }
    if kernel.faults == old(kernel.faults) { NothingStaleLeft(before, kernel.table, stale, list); }
  }

  lemma NothingStaleLeft(before: set<Flow>, after: set<Flow>, stale: set<Entry>, list: seq<Entry>)
    requires Cleaned(before, after, stale) && forall e :: e in stale ==> e in list
    requires forall j :: 0 <= j < |list| && list[j] in stale ==> NoneLeft(after, list[j])
    ensures after == DeleteAll(before, stale)
  {
    forall f, e | f in after && e in stale ensures !SamePattern(f.entry, e) {
      var j :| 0 <= j < |list| && list[j] == e;
      assert NoneLeft(after, list[j]);
    }
  }

  method DoSync(kernel: Kernel, containers: seq<Container>, host: string) returns (ok: bool, owners: map<string, string>)
    modifies kernel
    ensures Owners(owners, containers, host)
    ensures kernel.faults >= old(kernel.faults) && (kernel.faults == old(kernel.faults) ==> ok)
    ensures kernel.faults == old(kernel.faults) ==>
      var between := DeleteAll(old(kernel.table), StaleDnatEntries(old(kernel.table), owners));
      kernel.table == DeleteAll(between, StaleSnatEntries(between, owners))
  {
    owners := BuildContainersMap(containers, host);
    ok := SyncDnat(kernel, owners);
    if !ok { return; }
    ok := SyncSnat(kernel, owners);
  }

  // --- what the deletes really remove ----------------------------------------

  /** Entries with one pattern are stale together, so no delete of a stale
      translated entry can take a good one with it. */
  lemma DnatDeletesOnlyStale(table: set<Flow>, owners: map<string, string>)
    ensures var after := DeleteAll(table, StaleDnatEntries(table, owners));
            (forall f :: f in table && f.dnat ==> (f in after <==> !StaleDnat(owners, f.entry))) &&
            (forall f :: f in table && f !in after ==> StaleDnat(owners, f.entry))
  {
    forall f | f in table && f.dnat && StaleDnat(owners, f.entry) ensures f !in DeleteAll(table, StaleDnatEntries(table, owners)) {
      assert f.entry in DnatEntries(table) && SamePattern(f.entry, f.entry);
      assert f.entry in StaleDnatEntries(table, owners);
    }
  }

  /** A partly failed pass still removes nothing but stale entries. */
  lemma FailedDnatDeletesOnlyStale(table: set<Flow>, after: set<Flow>, owners: map<string, string>)
    requires Cleaned(table, after, StaleDnatEntries(table, owners))
    ensures after <= table && forall f :: f in table && f !in after ==> StaleDnat(owners, f.entry)
  {
    DnatDeletesOnlyStale(table, owners);
  }

  /** Source-translated connections lost although their own owner is right or unknown. */
  ghost predicate SnatSpared(table: set<Flow>, owners: map<string, string>) {
    forall f :: f in table && f.snat && !StaleSnat(owners, f.entry) ==>
      f in DeleteAll(table, StaleSnatEntries(table, owners))
  }

  /** The reply port decides who owns a source-translated entry but is not in the
      pattern: deleting the stale one of two takes the other along. */
  lemma SnatDeletesTooMuch()
    ensures var owners := map[Key("0.0.0.0", "8080", "tcp") := "10.42.0.7"];
            var stale := Entry("tcp", "10.42.0.9", "192.0.2.1", "4000", "80", "192.0.2.1", "198.51.100.5", "80", "8080");
            var good := Entry("tcp", "10.42.0.9", "192.0.2.1", "4001", "80", "192.0.2.1", "198.51.100.5", "80", "9090");
            var table := {Flow(1, stale, false, true), Flow(2, good, false, true)};
            StaleSnat(owners, stale) && !StaleSnat(owners, good) && !SnatSpared(table, owners)
  {
    var owners := map[Key("0.0.0.0", "8080", "tcp") := "10.42.0.7"];
    var stale := Entry("tcp", "10.42.0.9", "192.0.2.1", "4000", "80", "192.0.2.1", "198.51.100.5", "80", "8080");
    var good := Entry("tcp", "10.42.0.9", "192.0.2.1", "4001", "80", "192.0.2.1", "198.51.100.5", "80", "9090");
    var table := {Flow(1, stale, false, true), Flow(2, good, false, true)};
    assert Key("0.0.0.0", "8080", "tcp")[8] == '8' && Key("0.0.0.0", "9090", "tcp")[8] == '9';
    assert Key("198.51.100.5", "8080", "tcp")[0] == '1' && Key("198.51.100.5", "9090", "tcp")[0] == '1';
    assert Key("0.0.0.0", "8080", "tcp")[0] == '0';
    assert "10.42.0.7"[8] != "10.42.0.9"[8];
    assert stale in SnatEntries(table) by { assert Flow(1, stale, false, true) in table; }
    assert stale in StaleSnatEntries(table, owners);
    assert SamePattern(good, stale);
    var lost := Flow(2, good, false, true);
    assert lost in table && lost.snat && lost !in DeleteAll(table, StaleSnatEntries(table, owners));
  }

  // --- when the source-translation pass is safe ------------------------------

  /** For one table: exactly when its translated flows with one pattern are stale
      together, which destination translation guarantees and source translation
      does not. */
  lemma SnatSparesTableExactlyWhen(table: set<Flow>, owners: map<string, string>)
    ensures SnatSpared(table, owners) <==>
      forall f, g :: f in table && g in table && f.snat && g.snat && SamePattern(f.entry, g.entry) ==>
        (StaleSnat(owners, f.entry) <==> StaleSnat(owners, g.entry))
  {
    var stale := StaleSnatEntries(table, owners);
    if SnatSpared(table, owners) {
      forall f, g | f in table && g in table && f.snat && g.snat && SamePattern(f.entry, g.entry)
        ensures StaleSnat(owners, f.entry) <==> StaleSnat(owners, g.entry)
      {
        assert SamePattern(g.entry, f.entry);
        assert f.entry in SnatEntries(table) && g.entry in SnatEntries(table);
        assert StaleSnat(owners, f.entry) ==> f.entry in stale;
        assert StaleSnat(owners, g.entry) ==> g.entry in stale;
      }
    }
  }

  predicate IsAddress(text: string) { ParseAddress4(text).Some? }

  predicate IsPort(text: string) { ParseField(text, 65535).Some? && ParseField(text, 65535).value >= 1 }

  /** The protocols `conntrack` prints with ports. */
  const PORT_PROTOCOLS := ["tcp", "udp", "udplite", "dccp", "sctp"]

  /** An entry `conntrack -L` can print: IPv4 addresses, and ports where the protocol has them. */
  predicate Listable(e: Entry) {
    IsAddress(e.origSrc) && IsAddress(e.origDst) && IsAddress(e.replySrc) && IsAddress(e.replyDst) &&
    if e.proto in PORT_PROTOCOLS then
      IsPort(e.origSport) && IsPort(e.origDport) && IsPort(e.replySport) && IsPort(e.replyDport)
    else e.origSport == "" && e.origDport == "" && e.replySport == "" && e.replyDport == ""
  }

  predicate SameOriginal(a: Entry, b: Entry) {
    a.proto == b.proto && a.origSrc == b.origSrc && a.origDst == b.origDst &&
    a.origSport == b.origSport && a.origDport == b.origDport
  }

  predicate SameReply(a: Entry, b: Entry) {
    a.proto == b.proto && a.replySrc == b.replySrc && a.replyDst == b.replyDst &&
    a.replySport == b.replySport && a.replyDport == b.replyDport
  }

  predicate Translated(f: Flow) {
    (f.snat ==> f.entry.origSrc != f.entry.replyDst || f.entry.origSport != f.entry.replyDport) &&
    (f.dnat ==> f.entry.origDst != f.entry.replySrc || f.entry.origDport != f.entry.replySport)
  }

  /** A table the kernel can hold and list: printable entries, really translated
      flows, and no two port flows with one tuple in either direction. */
  ghost predicate ListableTable(table: set<Flow>) {
    (forall f :: f in table ==> Listable(f.entry) && Translated(f)) &&
    (forall f, g :: f in table && g in table && f != g && f.entry.proto in PORT_PROTOCOLS ==>
      !SameOriginal(f.entry, g.entry) && !SameReply(f.entry, g.entry))
  }

  predicate Known(owner: Option<string>) { owner.Some? && owner.value != "" }

  /** Two ports of one address of which one has a known owner and the other no
      known owner, or one with another address. */
  predicate PortsPart(owners: map<string, string>, ip: string, proto: string, q: string, r: string) {
    IsAddress(ip) && proto in PORT_PROTOCOLS && IsPort(q) && IsPort(r) &&
    var known, other := Expected(owners, ip, q, proto), Expected(owners, ip, r, proto);
    Known(known) && (Known(other) ==> other != known && IsAddress(other.value))
  }

  ghost predicate SomePortsPart(owners: map<string, string>) {
    exists ip, proto, q, r :: PortsPart(owners, ip, proto, q, r)
  }

  lemma Digits(d: char)
    requires '1' <= d <= '9'
    ensures IsPort([d])
  {
    var text := [d];
    assert text[..0] == "" && Decimal(text[..0]) == 0;
    assert Decimal(text) == d as int - '0' as int;
  }

  lemma DottedDigits(d: char)
    requires '1' <= d <= '9'
    ensures IsAddress([d, '.', d, '.', d, '.', d])
  {
    var one, text := [d], [d, '.', d, '.', d, '.', d];
    assert one[1..] == "" && [d] + "" == one;
    assert Split(one, '.') == [one];
    assert text[6..] == one;
    assert text[5..] == ['.'] + one && text[5..][1..] == one && Split(text[5..], '.') == ["", one];
    assert text[4..][1..] == text[5..] && Split(text[4..], '.') == [one, one];
    assert text[3..][1..] == text[4..] && Split(text[3..], '.') == ["", one, one];
    assert text[2..][1..] == text[3..] && Split(text[2..], '.') == [one, one, one];
    assert text[1..][1..] == text[2..] && Split(text[1..], '.') == ["", one, one, one];
    assert Split(text, '.') == [one, one, one, one];
    Digits(d);
    assert one[..0] == "" && Decimal(one) == d as int - '0' as int;
  }

  /** A client that makes the first port's entry stale and the second's good. */
  lemma Client(owners: map<string, string>, ip: string, proto: string, q: string, r: string) returns (client: string)
    requires PortsPart(owners, ip, proto, q, r)
    ensures IsAddress(client) && Differs(Expected(owners, ip, q, proto), client)
    ensures !Differs(Expected(owners, ip, r, proto), client)
  {
    var other := Expected(owners, ip, r, proto);
    if Known(other) {
      client := other.value;
    } else {
      DottedDigits('8');
      DottedDigits('9');
      client := if Expected(owners, ip, q, proto) == Some("8.8.8.8") then "9.9.9.9" else "8.8.8.8";
      assert "8.8.8.8"[0] != "9.9.9.9"[0];
    }
  }

  lemma SourcePorts(q: string, r: string) returns (s: string, t: string)
    ensures IsPort(s) && IsPort(t) && s != q && t != r && s != t
  {
    Digits('7');
    Digits('8');
    Digits('9');
    assert "7"[0] != "8"[0] && "8"[0] != "9"[0] && "7"[0] != "9"[0];
    s := if q == "7" then "8" else "7";
    t := if r == "9" then (if s == "7" then "8" else "7") else "9";
  }

  /** Ports that part make a listable table lose a good flow. */
  lemma PartedPortsLose(owners: map<string, string>, ip: string, proto: string, q: string, r: string) returns (table: set<Flow>)
    requires PortsPart(owners, ip, proto, q, r)
    ensures ListableTable(table) && !SnatSpared(table, owners)
  {
    var client := Client(owners, ip, proto, q, r);
    var s, t := SourcePorts(q, r);
    Digits('5');
    var stale := Entry(proto, client, ip, s, "5", ip, ip, "5", q);
    var good := Entry(proto, client, ip, t, "5", ip, ip, "5", r);
    var kept, lost := Flow(1, stale, false, true), Flow(2, good, false, true);
    table := {kept, lost};
    assert q != r;
    assert ListableTable(table);
    assert StaleSnat(owners, stale) && !StaleSnat(owners, good) && SamePattern(kept.entry, lost.entry);
    SnatSparesTableExactlyWhen(table, owners);
  }

  /** A good flow a listable table loses shows two ports that part. */
  lemma LossPartsPorts(table: set<Flow>, owners: map<string, string>)
    requires ListableTable(table) && !SnatSpared(table, owners)
    ensures SomePortsPart(owners)
  {
    var f :| f in table && f.snat && !StaleSnat(owners, f.entry) && f !in DeleteAll(table, StaleSnatEntries(table, owners));
    var e :| e in StaleSnatEntries(table, owners) && SamePattern(f.entry, e);
    var g :| g in table && g.entry == e;
    assert Listable(f.entry) && Listable(g.entry);
    assert PortsPart(owners, e.replyDst, e.proto, e.replyDport, f.entry.replyDport);
  }

  /** The source-translation pass spares every good flow of every table that can
      be listed exactly when no address has two ports that part. */
  lemma SnatIsSafeExactlyWhen(owners: map<string, string>)
    ensures (forall table :: ListableTable(table) ==> SnatSpared(table, owners)) <==> !SomePortsPart(owners)
  {
    if ip, proto, q, r :| PortsPart(owners, ip, proto, q, r) {
      var table := PartedPortsLose(owners, ip, proto, q, r);
      assert ListableTable(table) && !SnatSpared(table, owners);
    } else {
      forall table | ListableTable(table) ensures SnatSpared(table, owners) {
        if !SnatSpared(table, owners) { LossPartsPorts(table, owners); }
      }
    }
  }

  // --- ports, owners and staleness, in full ----------------------------------

  /** `ip:port:target/proto` publishes `ip:port/proto`. */
  lemma PublishedWithProtocol(ip: string, port: string, target: string, proto: string)
    requires ':' !in ip && ':' !in port && ':' !in target && ':' !in proto && '/' !in target && '/' !in proto
    ensures PublishedKey(ip + ":" + port + ":" + target + "/" + proto) == Some(ip + ":" + port + "/" + proto)
  {
    var last := target + ['/'] + proto;
    SplitInThree(ip, port, last);
    CidrText.SplitTwo(target, proto, '/');
    assert ip + ":" + port + ":" + target + "/" + proto == ip + ":" + port + ":" + last;
  }

  /** Without a protocol it is TCP. */
  lemma PublishedWithoutProtocol(ip: string, port: string, target: string)
    requires ':' !in ip && ':' !in port && ':' !in target && '/' !in target
    ensures PublishedKey(ip + ":" + port + ":" + target) == Some(ip + ":" + port + "/" + "tcp")
  {
    SplitInThree(ip, port, target);
    CidrText.SplitWhole(target, '/');
  }

  lemma SplitInThree(a: string, b: string, c: string)
    requires ':' !in a && ':' !in b && ':' !in c
    ensures Split(a + ":" + b + ":" + c, ':') == [a, b, c]
  {
    CidrText.SplitTwo(b, c, ':');
    CidrText.SplitFirst(a, ':', b + [':'] + c);
    assert a + ":" + b + ":" + c == a + [':'] + (b + [':'] + c);
  }

  /** Only texts with exactly two colons publish anything. */
  lemma PublishedMeans(text: string) returns (ip: string, port: string, target: string)
    requires PublishedKey(text).Some?
    ensures text == ip + ":" + port + ":" + target && ':' !in ip && ':' !in port && ':' !in target
  {
    var pieces := Split(text, ':');
    CidrText.SplitJoined(text, ':');
    ip, port, target := pieces[0], pieces[1], pieces[2];
    assert pieces[1..][1..] == [target] && pieces[1..][0] == port;
    assert CidrText.Joined(pieces[1..], ':') == port + [':'] + target;
  }

  /** The container that answers for a host address and port: the last one that
      publishes them, else the last one that publishes the port on every address. */
  ghost predicate Answers(containers: seq<Container>, host: string, ip: string, port: string, proto: string, i: nat) {
    LastPublisher(containers, host, ip + ":" + port + "/" + proto, i) ||
    (LastPublisher(containers, host, "0.0.0.0:" + port + "/" + proto, i) &&
     forall k :: 0 <= k < |containers| ==> !Publishes(containers[k], host, ip + ":" + port + "/" + proto))
  }

  lemma ExpectedMeans(owners: map<string, string>, containers: seq<Container>, host: string, ip: string, port: string, proto: string, i: nat)
    requires Owners(owners, containers, host) && Answers(containers, host, ip, port, proto, i)
    ensures Expected(owners, ip, port, proto) == Some(containers[i].primaryIp)
  {
    var own, any := ip + ":" + port + "/" + proto, "0.0.0.0:" + port + "/" + proto;
    assert "0.0.0.0" + ":" + port == "0.0.0.0:" + port;
    assert OwnerIs(Owner(owners, own), containers, host, own) && OwnerIs(Owner(owners, any), containers, host, any);
  }

  lemma NobodyAnswers(owners: map<string, string>, containers: seq<Container>, host: string, ip: string, port: string, proto: string)
    requires Owners(owners, containers, host)
    requires forall k :: 0 <= k < |containers| ==>
      !Publishes(containers[k], host, ip + ":" + port + "/" + proto) && !Publishes(containers[k], host, "0.0.0.0:" + port + "/" + proto)
    ensures Expected(owners, ip, port, proto) == None
  {
    var own, any := ip + ":" + port + "/" + proto, "0.0.0.0:" + port + "/" + proto;
    assert "0.0.0.0" + ":" + port == "0.0.0.0:" + port;
    assert OwnerIs(Owner(owners, own), containers, host, own) && OwnerIs(Owner(owners, any), containers, host, any);
  }

  /** A redirected flow is stale exactly when the container that answers for its
      destination has another known address than the flow's reply comes from; a
      source-translated one, when the container that answers for its reply has
      another known address than its origin. */
  lemma StaleExactly(owners: map<string, string>, containers: seq<Container>, host: string, e: Entry, i: nat)
    requires Owners(owners, containers, host)
    ensures Answers(containers, host, e.origDst, e.origDport, e.proto, i) ==>
      (StaleDnat(owners, e) <==> containers[i].primaryIp != "" && e.replySrc != containers[i].primaryIp)
    ensures Answers(containers, host, e.replyDst, e.replyDport, e.proto, i) ==>
      (StaleSnat(owners, e) <==> containers[i].primaryIp != "" && e.origSrc != containers[i].primaryIp)
  {
    if Answers(containers, host, e.origDst, e.origDport, e.proto, i) {
      ExpectedMeans(owners, containers, host, e.origDst, e.origDport, e.proto, i);
    }
    if Answers(containers, host, e.replyDst, e.replyDport, e.proto, i) {
      ExpectedMeans(owners, containers, host, e.replyDst, e.replyDport, e.proto, i);
    }
  }

  /** A flow nobody answers for is never stale. */
  lemma UnansweredIsNotStale(owners: map<string, string>, containers: seq<Container>, host: string, e: Entry)
    requires Owners(owners, containers, host)
    ensures (forall k :: 0 <= k < |containers| ==>
              !Publishes(containers[k], host, e.origDst + ":" + e.origDport + "/" + e.proto) &&
              !Publishes(containers[k], host, "0.0.0.0:" + e.origDport + "/" + e.proto)) ==> !StaleDnat(owners, e)
  {
    if forall k :: 0 <= k < |containers| ==>
        !Publishes(containers[k], host, e.origDst + ":" + e.origDport + "/" + e.proto) &&
        !Publishes(containers[k], host, "0.0.0.0:" + e.origDport + "/" + e.proto) {
      NobodyAnswers(owners, containers, host, e.origDst, e.origDport, e.proto);
    }
  }
}
